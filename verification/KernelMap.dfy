/** What a sequence of identity range mappings amounts to: for each page of the
    39-bit space, the last range that covers it. */
module KernelMap {
  import opened Wrappers
  import opened Words
  import opened PageTable

  /** One `map_range(root, start, end, flags)` call. */
  datatype Range = Range(start: nat, end: nat, flags: Flags) {
    /** `start & !(PAGE_SIZE - 1)`. */
    function First(): nat { start / PAGE * PAGE }
    /** `(end + PAGE_SIZE - 1) & !(PAGE_SIZE - 1)`, the addition wrapping at 64 bits. */
    function Limit(): nat { (end + (PAGE - 1)) % U64_LIMIT / PAGE * PAGE }

    /** The range covers the page at address `a`. */
    predicate Touches(a: nat) { First() <= a / PAGE * PAGE < Limit() }
  }

  predicate Aligned(a: nat) { a % PAGE == 0 }

  lemma RangeAligned(r: Range)
    ensures Aligned(r.First()) && Aligned(r.Limit()) && r.Limit() < U64_LIMIT
  {}

  lemma NextPage(addr: nat, end: nat, next: nat)
    requires Aligned(addr) && Aligned(end) && addr < end && next == addr + PAGE
    ensures Aligned(next) && next <= end
  {
    assert addr == addr / PAGE * PAGE && end == end / PAGE * PAGE;
  }

  /** The last page address in `[s, e)` that lands on page `n` of the space. */
  function LastCover(n: nat, s: nat, e: nat): (r: Option<nat>)
    ensures r.Some? ==> s <= r.value < e && PageNumber(r.value) == n
    decreases e
  {
    if e < s + PAGE then None
    else if PageNumber(e - PAGE) == n then Some(e - PAGE)
    else LastCover(n, s, e - PAGE)
  }

  /** The mapping a list of ranges leaves on page `n`: the last covering range wins. */
  function Covering(ranges: seq<Range>, n: nat): Option<(nat, Flags)> {
    if ranges == [] then None
    else
      var last := ranges[|ranges| - 1];
      match LastCover(n, last.First(), last.Limit())
      case Some(a) => Some((a, last.flags))
      case None => Covering(ranges[..|ranges| - 1], n)
  }

  function CoveringView(c: Option<(nat, Flags)>, va: nat): Option<WalkResult> {
    match c
    case None => None
    case Some((a, f)) => LeafView(NewLeaf(a, f), va)
  }

  // ---- Below the end of the space, covering is plain interval membership ----

  /** An aligned range below 2^39 covers page `n` at its own address only. */
  lemma {:induction false} CoverBelowLimit(n: nat, s: nat, e: nat)
    requires s % PAGE == 0 && e % PAGE == 0 && e <= VA_LIMIT && n < PAGES_PER_SPACE
    ensures LastCover(n, s, e) == if s <= n * PAGE < e then Some(n * PAGE) else None
    decreases e
  {
    if e >= s + PAGE {
      LastPage(e);
      if PageNumber(e - PAGE) != n {
        CoverBelowLimit(n, s, e - PAGE);
      }
    }
  }

  lemma LastPage(e: nat)
    requires e % PAGE == 0 && PAGE <= e <= VA_LIMIT
    ensures PageNumber(e - PAGE) * PAGE == e - PAGE
  {
    assert (e - PAGE) / PAGE == e / PAGE - 1;
  }

  /** Identity mapping is faithful exactly below the limit: a range reaching past
      2^39 makes some address of the space translate elsewhere. */
  lemma IdentityIffBelowLimit(r: Range)
    requires r.First() < r.Limit()
    ensures r.Limit() <= VA_LIMIT <==>
            forall n: nat :: n < PAGES_PER_SPACE && Covering([r], n).Some? ==> Covering([r], n).value.0 == n * PAGE
  {
    assert [r][..0] == [];
    if r.Limit() <= VA_LIMIT {
      forall n: nat | n < PAGES_PER_SPACE && Covering([r], n).Some?
        ensures Covering([r], n).value.0 == n * PAGE
      {
        CoverBelowLimit(n, r.First(), r.Limit());
      }
    } else {
      var a := r.Limit() - PAGE;
      var n := PageNumber(a);
      assert LastCover(n, r.First(), r.Limit()) == Some(a);
      assert Covering([r], n) == Some((a, r.flags));
    }
  }

  // ---- The kernel's own map ----

  ghost predicate KernelRange(r: Range) {
    r.Limit() <= VA_LIMIT && (r.flags == KERNEL_RX || r.flags == KERNEL_RO || r.flags == KERNEL_RW)
  }

  /** Range `i` is the last of `ranges` that touches the page of `va`. */
  ghost predicate LastTouching(ranges: seq<Range>, va: nat, i: nat) {
    && i < |ranges| && ranges[i].Touches(va)
    && forall j :: i < j < |ranges| ==> !ranges[j].Touches(va)
  }

  /** An address of the space is its page's address plus its offset. */
  lemma PageOfAddress(va: nat)
    requires va < VA_LIMIT
    ensures PageNumber(va) == va / PAGE && PageNumber(va) < PAGES_PER_SPACE
    ensures PageNumber(va) * PAGE == va / PAGE * PAGE && va / PAGE * PAGE + va % PAGE == va
  {}

  /** What one more range does to the page of `va`. */
  lemma CoveringStep(ranges: seq<Range>, va: nat)
    requires ranges != [] && KernelRange(ranges[|ranges| - 1]) && va < VA_LIMIT
    ensures
      var k, n := |ranges| - 1, PageNumber(va);
      Covering(ranges, n) ==
      if ranges[k].Touches(va) then Some((n * PAGE, ranges[k].flags)) else Covering(ranges[..k], n)
  {
    var last := ranges[|ranges| - 1];
    PageOfAddress(va);
    CoverBelowLimit(PageNumber(va), last.First(), last.Limit());
  }

  ghost predicate IdentityView(ranges: seq<Range>, va: nat, w: Option<WalkResult>) {
    && (w.Some? <==> exists i :: 0 <= i < |ranges| && ranges[i].Touches(va))
    && (w.Some? ==>
          && w.value.phys == va
          && !(FlagsWritable(w.value.flags) && FlagsExecutable(w.value.flags))
          && exists i: nat :: LastTouching(ranges, va, i) && w.value.flags == ranges[i].flags)
  }

  /** A range that does not touch the page changes nothing for it. */
  lemma UntouchedRange(ranges: seq<Range>, va: nat, w: Option<WalkResult>)
    requires ranges != [] && !ranges[|ranges| - 1].Touches(va)
    requires IdentityView(ranges[..|ranges| - 1], va, w)
    ensures IdentityView(ranges, va, w)
  {
    var front := ranges[..|ranges| - 1];
    forall i | 0 <= i < |ranges| && ranges[i].Touches(va)
      ensures exists i' :: 0 <= i' < |front| && front[i'].Touches(va)
    {
      assert front[i].Touches(va);
    }
    if w.Some? {
      var i: nat :| LastTouching(front, va, i) && w.value.flags == front[i].flags;
      assert ranges[i].Touches(va);
      assert LastTouching(ranges, va, i);
    }
  }

  /** Under kernel ranges an address resolves iff some range touches its page; it
      resolves to itself, with the flags of the last such range, never both
      writable and executable. */
  lemma {:induction false} KernelRangesIdentity(ranges: seq<Range>, va: nat)
    requires forall i :: 0 <= i < |ranges| ==> KernelRange(ranges[i])
    requires va < VA_LIMIT
    ensures IdentityView(ranges, va, CoveringView(Covering(ranges, PageNumber(va)), va))
  {
    if ranges != [] {
      var k := |ranges| - 1;
      CoveringStep(ranges, va);
      if ranges[k].Touches(va) {
        PageOfAddress(va);
        KernelFlags(PageNumber(va) * PAGE, ranges[k]);
        assert LastTouching(ranges, va, k);
      } else {
        KernelRangesIdentity(ranges[..k], va);
        UntouchedRange(ranges, va, CoveringView(Covering(ranges, PageNumber(va)), va));
      }
    }
  }

  lemma KernelFlags(pa: u64, r: Range)
    requires KernelRange(r) && pa % PAGE == 0
    ensures IsLeaf(NewLeaf(pa, r.flags)) && FlagsOf(NewLeaf(pa, r.flags)) == r.flags
    ensures PhysAddr(NewLeaf(pa, r.flags)) == pa
    ensures !(FlagsWritable(r.flags) && FlagsExecutable(r.flags))
  {
    EntryRoundTrip(pa, r.flags);
  }
}
