/** The submission ring: up to `n` entries are copied out of a module's memory, answered,
    and completed in order. */
module RingDrain {
  import opened Wrappers
  import opened Bytes
  import opened KernelAbi

  const MAX_RING_ENTRIES: nat := 1024
  const SQE_SIZE: nat := 40
  const CQE_SIZE: nat := 16

  // ---- Entries ----

  datatype Sqe = Sqe(op: nat, regIdx: nat, flags: nat, userData: nat, arg0: nat, arg1: nat)

  function U32At(b: seq<byte>, off: nat): nat
    requires off + 4 <= |b|
  {
    LeValue(b[off..off + 4])
  }

  function U64At(b: seq<byte>, off: nat): nat
    requires off + 8 <= |b|
  {
    LeValue(b[off..off + 8])
  }

  /** `decode_sqe`: bytes 12 to 15 are padding. */
  function DecodeSqe(b: seq<byte>, idx: nat): Option<Sqe> {
    var base := idx * SQE_SIZE;
    if base + SQE_SIZE > |b| then None
    else Some(Sqe(U32At(b, base), U32At(b, base + 4), U32At(b, base + 8),
                  U64At(b, base + 16), U64At(b, base + 24), U64At(b, base + 32)))
  }

  /** How a module lays an entry out. */
  function EncodeSqe(s: Sqe, pad: seq<byte>): (r: seq<byte>)
    requires |pad| == 4
    ensures |r| == SQE_SIZE
  {
    LeBytes(s.op, 4) + LeBytes(s.regIdx, 4) + LeBytes(s.flags, 4) + pad
    + LeBytes(s.userData, 8) + LeBytes(s.arg0, 8) + LeBytes(s.arg1, 8)
  }

  ghost predicate SqeFits(s: Sqe) {
    && s.op < Pow256(4) && s.regIdx < Pow256(4) && s.flags < Pow256(4)
    && s.userData < Pow256(8) && s.arg0 < Pow256(8) && s.arg1 < Pow256(8)
  }

  /** Four bytes as a number, the lowest first. */
  function FromBytes(a: nat, b: nat, c: nat, d: nat): nat { a + 256 * b + 0x1_0000 * c + 0x100_0000 * d }

  /** Where each field of an entry lies, and that numbers are little-endian. */
  lemma SqeLayout(b: seq<byte>)
    requires |b| == 40
    ensures var s := DecodeSqe(b, 0);
      && s.Some?
      && s.value.op == FromBytes(b[0], b[1], b[2], b[3])
      && s.value.regIdx == FromBytes(b[4], b[5], b[6], b[7])
      && s.value.flags == FromBytes(b[8], b[9], b[10], b[11])
      && s.value.userData == LeValue(b[16..24]) && s.value.arg0 == LeValue(b[24..32]) && s.value.arg1 == LeValue(b[32..])
  {
    FourBytes(b[0..4]);
    FourBytes(b[4..8]);
    FourBytes(b[8..12]);
    assert b[32..40] == b[32..];
  }

  lemma FourBytes(b: seq<byte>)
    requires |b| == 4
    ensures LeValue(b) == FromBytes(b[0], b[1], b[2], b[3])
  {
    var c, d, e := b[1..], b[2..], b[3..];
    assert c[1..] == d && d[1..] == e && e[1..] == [];
    assert c[0] == b[1] && d[0] == b[2] && e[0] == b[3];
    assert LeValue(e) == e[0] && LeValue(d) == d[0] + 256 * LeValue(e) && LeValue(c) == c[0] + 256 * LeValue(d);
  }

  lemma SqeSlices(s: Sqe, pad: seq<byte>)
    requires |pad| == 4
    ensures var b := EncodeSqe(s, pad);
      && b[0..4] == LeBytes(s.op, 4) && b[4..8] == LeBytes(s.regIdx, 4) && b[8..12] == LeBytes(s.flags, 4)
      && b[16..24] == LeBytes(s.userData, 8) && b[24..32] == LeBytes(s.arg0, 8) && b[32..40] == LeBytes(s.arg1, 8)
  {
    var b := EncodeSqe(s, pad);
    assert b[32..40] == b[32..] == LeBytes(s.arg1, 8);
  }

  lemma SqeRoundTrip(s: Sqe, pad: seq<byte>)
    requires SqeFits(s) && |pad| == 4
    ensures DecodeSqe(EncodeSqe(s, pad), 0) == Some(s)
  {
    SqeSlices(s, pad);
    LeRoundTrip(s.op, 4);
    LeRoundTrip(s.regIdx, 4);
    LeRoundTrip(s.flags, 4);
    LeRoundTrip(s.userData, 8);
    LeRoundTrip(s.arg0, 8);
    LeRoundTrip(s.arg1, 8);
  }

  /** A 64-bit result in two's complement. */
  function Wrap64(result: int): nat { result % 0x1_0000_0000_0000_0000 }

  /** `encode_cqe`. */
  function EncodeCqe(userData: nat, result: int): (r: seq<byte>)
    ensures |r| == CQE_SIZE
  {
    LeBytes(userData, 8) + LeBytes(Wrap64(result), 8)
  }

  /** A completion gives back the user data and the result of any `i64`. */
  lemma CqeReads(userData: nat, result: int)
    requires userData < Pow256(8) && -0x8000_0000_0000_0000 <= result < 0x8000_0000_0000_0000
    ensures var c := EncodeCqe(userData, result);
      && U64At(c, 0) == userData
      && result == (if U64At(c, 8) < 0x8000_0000_0000_0000 then U64At(c, 8) else U64At(c, 8) - 0x1_0000_0000_0000_0000)
  {
    var c := EncodeCqe(userData, result);
    assert c[0..8] == LeBytes(userData, 8) && c[8..16] == c[8..] == LeBytes(Wrap64(result), 8);
    assert Pow256(8) == 0x1_0000_0000_0000_0000;
    LeRoundTrip(userData, 8);
    LeRoundTrip(Wrap64(result), 8);
    Wrap64Reads(result);
  }

  lemma Wrap64Reads(result: int)
    requires -0x8000_0000_0000_0000 <= result < 0x8000_0000_0000_0000
    ensures result == if Wrap64(result) < 0x8000_0000_0000_0000 then Wrap64(result) else Wrap64(result) - 0x1_0000_0000_0000_0000
  {}

  // ---- Draining ----

  datatype RingDesc = RingDesc(sqPtr: nat, cqPtr: nat, entries: nat, active: bool)

  function SqOff(d: RingDesc, i: nat): nat { d.sqPtr + i * SQE_SIZE }

  function CqOff(d: RingDesc, i: nat): nat { d.cqPtr + i * CQE_SIZE }

  /** Bytes of `mem` replaced from `off`. */
  function Overwritten(mem: seq<byte>, off: nat, s: seq<byte>): (r: seq<byte>)
    requires off + |s| <= |mem|
    ensures |r| == |mem| && forall k :: 0 <= k < |mem| ==> r[k] == if off <= k < off + |s| then s[k - off] else mem[k]
  {
    seq(|mem|, k requires 0 <= k < |mem| => if off <= k < off + |s| then s[k - off] else mem[k])
  }

  /** What an entry, by its place and its bytes, is answered with. */
  type Completer = (nat, seq<byte>) -> seq<byte>

  /** The completion of the `i`-th entry, from the bytes copied out of memory: `answer` is
      what its operation returns. */
  function CompletionOf(answer: (nat, Sqe) -> int, i: nat, entry: seq<byte>): (r: seq<byte>)
    ensures |r| == CQE_SIZE
  {
    if |entry| != SQE_SIZE then Zeros(CQE_SIZE)
    else
      var sqe := DecodeSqe(entry, 0).value;
      EncodeCqe(sqe.userData, answer(i, sqe))
  }

  function Completion(answer: (nat, Sqe) -> int): Completer {
    (i: nat, entry: seq<byte>) => CompletionOf(answer, i, entry)
  }

  /** Completions have their size. */
  ghost predicate Sized(complete: Completer) {
    forall i: nat, entry :: |complete(i, entry)| == CQE_SIZE
  }

  /** The rest of a drain from entry `i`: memory after it, and how many were completed. */
  ghost function Drain(mem: seq<byte>, d: RingDesc, i: nat, count: nat, complete: Completer): (r: (seq<byte>, nat))
    requires i <= count && Sized(complete)
    ensures |r.0| == |mem| && i <= r.1 <= count
    decreases count - i
  {
    if i == count || !EntryInBounds(|mem|, d, i) then (mem, i)
    else
      var entry := mem[SqOff(d, i)..SqOff(d, i) + SQE_SIZE];
      Drain(Overwritten(mem, CqOff(d, i), complete(i, entry)), d, i + 1, count, complete)
  }

  /** No completion of the first `n` overlaps a later entry among them. */
  ghost predicate Unclobbered(d: RingDesc, n: nat) {
    forall i, k :: 0 <= i < k < n ==> Apart(d, i, k)
  }

  predicate Apart(d: RingDesc, i: nat, k: nat) {
    CqOff(d, i) + CQE_SIZE <= SqOff(d, k) || SqOff(d, k) + SQE_SIZE <= CqOff(d, i)
  }

  /** That depends on the two pointers alone: completions must start no later than 24 bytes
      into the entries, or past them all. */
  predicate Layout(d: RingDesc, n: nat) {
    n <= 1 || d.cqPtr <= d.sqPtr + (SQE_SIZE - CQE_SIZE) || SqOff(d, n) <= d.cqPtr
  }

  /** The first entry that a completion of an ill-laid ring overlaps. */
  function Clobbered(d: RingDesc): nat {
    var k := (d.cqPtr - d.sqPtr) / SQE_SIZE;
    if k <= 0 then 1 else k
  }

  lemma ClobberedOverlaps(d: RingDesc, n: nat)
    requires !Layout(d, n)
    ensures var k := Clobbered(d);
      && 0 < k < n && (k <= 1 || SqOff(d, k) <= d.cqPtr)
      && !Apart(d, 0, k)
      && (if d.cqPtr >= SqOff(d, k) then d.cqPtr < SqOff(d, k) + SQE_SIZE else SqOff(d, k) < CqOff(d, 1))
  {
    var gap := d.cqPtr - d.sqPtr;
    assert gap > 24;
    if gap < SQE_SIZE { assert gap / SQE_SIZE == 0; }
    else { assert SQE_SIZE * (gap / SQE_SIZE) <= gap < SQE_SIZE * (gap / SQE_SIZE) + SQE_SIZE; }
  }

  lemma UnclobberedIff(d: RingDesc, n: nat)
    ensures Unclobbered(d, n) <==> Layout(d, n)
  {
    if !Layout(d, n) { ClobberedOverlaps(d, n); }
    else {
      forall i, k | 0 <= i < k < n ensures Apart(d, i, k) { LayoutKeepsApart(d, n, i, k); }
    }
  }

  lemma LayoutKeepsApart(d: RingDesc, n: nat, i: nat, k: nat)
    requires Layout(d, n) && i < k < n
    ensures Apart(d, i, k)
  {}

  /** Entry `i` and its completion lie in a memory of `size` bytes. */
  predicate EntryInBounds(size: nat, d: RingDesc, i: nat) {
    SqOff(d, i) + SQE_SIZE <= size && CqOff(d, i) + CQE_SIZE <= size
  }

  /** How many of `count` entries a drain from entry `i` reaches in a memory of `size` bytes. */
  function Reached(size: nat, d: RingDesc, i: nat, count: nat): (n: nat)
    requires i <= count
    ensures i <= n <= count && forall k: nat :: i <= k < n ==> EntryInBounds(size, d, k)
    decreases count - i
  {
    if i == count || !EntryInBounds(size, d, i) then i else Reached(size, d, i + 1, count)
  }

  /** That depends on the memory's size alone. */
  lemma {:induction false} DrainReaches(mem: seq<byte>, d: RingDesc, i: nat, count: nat, complete: Completer)
    requires i <= count && Sized(complete)
    ensures Drain(mem, d, i, count, complete).1 == Reached(|mem|, d, i, count)
    decreases count - i
  {
    if i < count && EntryInBounds(|mem|, d, i) {
      var mem' := DrainStep(mem, d, i, count, complete);
      DrainReaches(mem', d, i + 1, count, complete);
    }
  }

  /** Entry `i` of `before` is answered at its place in `after`. */
  ghost predicate Completed(before: seq<byte>, after: seq<byte>, d: RingDesc, i: nat, complete: Completer)
    requires EntryInBounds(|before|, d, i) && |after| == |before|
  {
    after[CqOff(d, i)..CqOff(d, i) + CQE_SIZE] == complete(i, before[SqOff(d, i)..SqOff(d, i) + SQE_SIZE])
  }

  lemma OverwrittenAt(mem: seq<byte>, off: nat, s: seq<byte>)
    requires off + |s| <= |mem|
    ensures var r := Overwritten(mem, off, s);
      && r[off..off + |s|] == s
      && forall k :: 0 <= k < |mem| && !(off <= k < off + |s|) ==> r[k] == mem[k]
  {}

  lemma SameSlice(a: seq<byte>, b: seq<byte>, from: nat, end: nat)
    requires |a| == |b| && from <= end <= |a| && forall k :: from <= k < end ==> a[k] == b[k]
    ensures a[from..end] == b[from..end]
  {}

  lemma DrainStep(mem: seq<byte>, d: RingDesc, i: nat, count: nat, complete: Completer) returns (mem': seq<byte>)
    requires i < count && Sized(complete) && EntryInBounds(|mem|, d, i)
    ensures |mem'| == |mem| && Drain(mem, d, i, count, complete) == Drain(mem', d, i + 1, count, complete)
    ensures Completed(mem, mem', d, i, complete)
    ensures forall k :: 0 <= k < |mem| && !(CqOff(d, i) <= k < CqOff(d, i + 1)) ==> mem'[k] == mem[k]
  {
    var cqe := complete(i, mem[SqOff(d, i)..SqOff(d, i) + SQE_SIZE]);
    mem' := Overwritten(mem, CqOff(d, i), cqe);
    OverwrittenAt(mem, CqOff(d, i), cqe);
  }

  /** A drain stops at the first entry out of bounds, and writes only its completions. */
  lemma {:induction false} DrainStops(mem: seq<byte>, d: RingDesc, i: nat, count: nat, complete: Completer)
    requires i <= count && Sized(complete)
    ensures var (after, n) := Drain(mem, d, i, count, complete);
      && (forall k: nat :: i <= k < n ==> EntryInBounds(|mem|, d, k))
      && (n < count ==> !EntryInBounds(|mem|, d, n))
      && (forall k :: 0 <= k < |mem| && !(CqOff(d, i) <= k < CqOff(d, n)) ==> after[k] == mem[k])
    decreases count - i
  {
    if i < count && EntryInBounds(|mem|, d, i) {
      var mem' := DrainStep(mem, d, i, count, complete);
      DrainStops(mem', d, i + 1, count, complete);
    }
  }

  /** Entries are 40 bytes apart and completions 16: the first of either that memory ends
      before stops the drain. */
  lemma InBoundsIff(size: nat, d: RingDesc, i: nat)
    ensures EntryInBounds(size, d, i) <==> d.sqPtr + 40 * i + 40 <= size && d.cqPtr + 16 * i + 16 <= size
  {}

  /** When no completion reached overlaps a later entry reached, every entry reached is
      completed in order from the entry originally submitted. */
  lemma {:induction false} DrainCompletes(mem: seq<byte>, d: RingDesc, i: nat, count: nat, complete: Completer, k: nat)
    requires i <= count && Sized(complete) && Unclobbered(d, Drain(mem, d, i, count, complete).1)
    requires i <= k < Drain(mem, d, i, count, complete).1
    ensures EntryInBounds(|mem|, d, k) && Completed(mem, Drain(mem, d, i, count, complete).0, d, k, complete)
    decreases count - i
  {
    DrainStops(mem, d, i, count, complete);
    assert EntryInBounds(|mem|, d, i);
    var mem' := DrainStep(mem, d, i, count, complete);
    var after := Drain(mem, d, i, count, complete).0;
    if k == i {
      DrainStops(mem', d, i + 1, count, complete);
      CompletedStays(mem, mem', after, d, i, complete);
    } else {
      DrainCompletes(mem', d, i + 1, count, complete, k);
      assert Apart(d, i, k);
      CompletedFromOriginal(mem, mem', after, d, i, k, complete);
    }
  }

  lemma CompletedStays(mem: seq<byte>, mem': seq<byte>, after: seq<byte>, d: RingDesc, i: nat, complete: Completer)
    requires EntryInBounds(|mem|, d, i) && |mem| == |mem'| == |after| && Completed(mem, mem', d, i, complete)
    requires forall k :: 0 <= k < |mem| && !(CqOff(d, i + 1) <= k) ==> after[k] == mem'[k]
    ensures Completed(mem, after, d, i, complete)
  {
    SameSlice(after, mem', CqOff(d, i), CqOff(d, i) + CQE_SIZE);
  }

  lemma CompletedFromOriginal(mem: seq<byte>, mem': seq<byte>, after: seq<byte>, d: RingDesc, i: nat, k: nat, complete: Completer)
    requires EntryInBounds(|mem|, d, k) && |mem| == |mem'| == |after| && Completed(mem', after, d, k, complete)
    requires i < k && Apart(d, i, k)
    requires forall j :: 0 <= j < |mem| && !(CqOff(d, i) <= j < CqOff(d, i + 1)) ==> mem'[j] == mem[j]
    ensures Completed(mem, after, d, k, complete)
  {
    SameSlice(mem, mem', SqOff(d, k), SqOff(d, k) + SQE_SIZE);
  }

  // ---- A ring laid out otherwise is not answered faithfully ----

  /** Every entry reached in `size` bytes is completed from what was submitted, whatever the
      memory holds and the operations answer. */
  ghost predicate Faithful(d: RingDesc, count: nat, size: nat) {
    forall mem, complete, k: nat {:trigger Drain(mem, d, 0, count, complete), EntryInBounds(|mem|, d, k)} ::
      |mem| == size && Sized(complete) && k < Drain(mem, d, 0, count, complete).1 ==>
        EntryInBounds(|mem|, d, k) && Completed(mem, Drain(mem, d, 0, count, complete).0, d, k, complete)
  }

  function Ones(n: nat): (r: seq<byte>)
    ensures |r| == n && forall i :: 0 <= i < n ==> r[i] == 1
  {
    seq(n, _ => 1)
  }

  /** Answers an entry of zeros with ones, and any other with zeros. */
  ghost predicate InvertsAt(complete: Completer, i: nat, entry: seq<byte>) {
    complete(i, entry) == if entry == Zeros(SQE_SIZE) then Ones(CQE_SIZE) else Zeros(CQE_SIZE)
  }

  ghost predicate Inverts(complete: Completer) {
    forall i: nat, entry {:trigger InvertsAt(complete, i, entry)} :: InvertsAt(complete, i, entry)
  }

  lemma InvertsSized(complete: Completer)
    requires Inverts(complete)
    ensures Sized(complete)
  {
    forall i: nat, entry ensures |complete(i, entry)| == CQE_SIZE { assert InvertsAt(complete, i, entry); }
  }

  /** Ones exactly on the completions of the first `i` entries. */
  ghost predicate Marked(mem: seq<byte>, d: RingDesc, i: nat) {
    forall j :: 0 <= j < |mem| ==> mem[j] == if d.cqPtr <= j < CqOff(d, i) then 1 else 0
  }

  lemma ZeroEntry(mem: seq<byte>, from: nat)
    requires from + SQE_SIZE <= |mem| && forall j :: from <= j < from + SQE_SIZE ==> mem[j] == 0
    ensures mem[from..from + SQE_SIZE] == Zeros(SQE_SIZE)
  {}

  /** Up to entry `k`, before which no entry is overlapped, the drain over zeros leaves ones. */
  lemma {:induction false} DrainMarks(mem: seq<byte>, d: RingDesc, i: nat, k: nat, count: nat, complete: Completer)
    returns (mem': seq<byte>)
    requires i <= k < count && Marked(mem, d, i) && Sized(complete) && Inverts(complete)
    requires (k <= 1 || SqOff(d, k) <= d.cqPtr) && EntryInBounds(|mem|, d, k)
    ensures |mem'| == |mem| && Marked(mem', d, k)
    ensures Drain(mem, d, i, count, complete) == Drain(mem', d, k, count, complete)
    decreases k - i
  {
    if i == k {
      mem' := mem;
    } else {
      UnreadIsZero(mem, d, i, k);
      var next := DrainStep(mem, d, i, count, complete);
      MarkedNext(mem, next, d, i, complete);
      mem' := DrainMarks(next, d, i + 1, k, count, complete);
    }
  }

  /** An entry before `k` is still zero when its turn comes. */
  lemma UnreadIsZero(mem: seq<byte>, d: RingDesc, i: nat, k: nat)
    requires i < k && Marked(mem, d, i) && (k <= 1 || SqOff(d, k) <= d.cqPtr) && EntryInBounds(|mem|, d, k)
    ensures EntryInBounds(|mem|, d, i) && mem[SqOff(d, i)..SqOff(d, i) + SQE_SIZE] == Zeros(SQE_SIZE)
  {
    ZeroEntry(mem, SqOff(d, i));
  }

  lemma MarkedNext(mem: seq<byte>, next: seq<byte>, d: RingDesc, i: nat, complete: Completer)
    requires Marked(mem, d, i) && |next| == |mem| && EntryInBounds(|mem|, d, i) && Inverts(complete)
    requires mem[SqOff(d, i)..SqOff(d, i) + SQE_SIZE] == Zeros(SQE_SIZE) && Completed(mem, next, d, i, complete)
    requires forall k :: 0 <= k < |mem| && !(CqOff(d, i) <= k < CqOff(d, i + 1)) ==> next[k] == mem[k]
    ensures Marked(next, d, i + 1)
  {
    var at := CqOff(d, i);
    assert InvertsAt(complete, i, mem[SqOff(d, i)..SqOff(d, i) + SQE_SIZE]);
    assert next[at..at + CQE_SIZE] == Ones(CQE_SIZE);
    forall j | at <= j < at + CQE_SIZE ensures next[j] == 1 {
      assert next[at..at + CQE_SIZE][j - at] == 1;
    }
  }

  /** An entry that holds a one is answered with zeros, and so not as the zeros submitted. */
  lemma SpoiltAnswer(zeros: seq<byte>, mem: seq<byte>, d: RingDesc, k: nat, at: nat, count: nat, complete: Completer)
    requires k < count && Sized(complete) && Inverts(complete) && EntryInBounds(|mem|, d, k) && |zeros| == |mem|
    requires zeros[SqOff(d, k)..SqOff(d, k) + SQE_SIZE] == Zeros(SQE_SIZE)
    requires SqOff(d, k) <= at < SqOff(d, k) + SQE_SIZE && mem[at] == 1
    ensures var (after, n) := Drain(mem, d, k, count, complete);
      k < n && !Completed(zeros, after, d, k, complete)
  {
    NonZeroEntry(mem, SqOff(d, k), at);
    var next := DrainStep(mem, d, k, count, complete);
    DrainStops(next, d, k + 1, count, complete);
    var after := Drain(mem, d, k, count, complete).0;
    CompletedStays(mem, next, after, d, k, complete);
    NotBoth(zeros, mem, after, d, k, complete);
  }

  lemma NotBoth(zeros: seq<byte>, mem: seq<byte>, after: seq<byte>, d: RingDesc, k: nat, complete: Completer)
    requires Inverts(complete) && |zeros| == |mem| == |after| && EntryInBounds(|mem|, d, k) && Completed(mem, after, d, k, complete)
    requires zeros[SqOff(d, k)..SqOff(d, k) + SQE_SIZE] == Zeros(SQE_SIZE)
    requires mem[SqOff(d, k)..SqOff(d, k) + SQE_SIZE] != Zeros(SQE_SIZE)
    ensures !Completed(zeros, after, d, k, complete)
  {
    assert InvertsAt(complete, k, zeros[SqOff(d, k)..SqOff(d, k) + SQE_SIZE]);
    assert InvertsAt(complete, k, mem[SqOff(d, k)..SqOff(d, k) + SQE_SIZE]);
    assert Zeros(CQE_SIZE)[0] == 0 && Ones(CQE_SIZE)[0] == 1;
  }

  lemma NonZeroEntry(mem: seq<byte>, from: nat, at: nat)
    requires from <= at < from + SQE_SIZE <= |mem| && mem[at] == 1
    ensures mem[from..from + SQE_SIZE] != Zeros(SQE_SIZE)
  {
    assert mem[from..from + SQE_SIZE][at - from] == 1;
  }

  /** Over zeros, an ill-laid ring answers an entry that was never submitted. */
  lemma IllLaidSpoils(d: RingDesc, count: nat, size: nat, complete: Completer) returns (mem: seq<byte>, k: nat)
    requires !Layout(d, Reached(size, d, 0, count)) && Inverts(complete) && Sized(complete)
    ensures |mem| == size && k < Drain(mem, d, 0, count, complete).1
    ensures EntryInBounds(size, d, k) && !Completed(mem, Drain(mem, d, 0, count, complete).0, d, k, complete)
  {
    ClobberedOverlaps(d, Reached(size, d, 0, count));
    k := Clobbered(d);
    assert EntryInBounds(size, d, k);
    mem := Zeros(size);
    ZeroEntry(mem, SqOff(d, k));
    var mem' := DrainMarks(mem, d, 0, k, count, complete);
    SpoiltAnswer(mem, mem', d, k, if d.cqPtr >= SqOff(d, k) then d.cqPtr else SqOff(d, k), count, complete);
  }

  /** In a well-laid ring, every entry reached is completed as submitted. */
  lemma CompletedAt(mem: seq<byte>, d: RingDesc, count: nat, complete: Completer, k: nat)
    requires Sized(complete) && Layout(d, Reached(|mem|, d, 0, count)) && k < Reached(|mem|, d, 0, count)
    ensures EntryInBounds(|mem|, d, k) && Completed(mem, Drain(mem, d, 0, count, complete).0, d, k, complete)
  {
    DrainReaches(mem, d, 0, count, complete);
    UnclobberedIff(d, Reached(|mem|, d, 0, count));
    DrainCompletes(mem, d, 0, count, complete, k);
  }

  lemma OneSpoiltIsEnough(mem: seq<byte>, d: RingDesc, count: nat, complete: Completer, k: nat)
    requires Sized(complete) && k < Drain(mem, d, 0, count, complete).1
    requires EntryInBounds(|mem|, d, k) && !Completed(mem, Drain(mem, d, 0, count, complete).0, d, k, complete)
    ensures !Faithful(d, count, |mem|)
  {}

  /** In a memory of `size` bytes a ring is answered faithfully exactly when, of the entries
      reached there, no completion overlaps a later one: when its completions start at most
      24 bytes past its entries, or beyond the last one reached. */
  lemma FaithfulIff(d: RingDesc, count: nat, size: nat)
    ensures Faithful(d, count, size) <==> Layout(d, Reached(size, d, 0, count))
    ensures Faithful(d, count, size) <==> Unclobbered(d, Reached(size, d, 0, count))
  {
    UnclobberedIff(d, Reached(size, d, 0, count));
    if Layout(d, Reached(size, d, 0, count)) {
      forall mem, complete, k: nat {:trigger Drain(mem, d, 0, count, complete), EntryInBounds(|mem|, d, k)} |
        |mem| == size && Sized(complete) && k < Drain(mem, d, 0, count, complete).1
        ensures EntryInBounds(|mem|, d, k) && Completed(mem, Drain(mem, d, 0, count, complete).0, d, k, complete)
      {
        DrainReaches(mem, d, 0, count, complete);
        CompletedAt(mem, d, count, complete, k);
      }
    } else {
      var complete := (i: nat, entry: seq<byte>) => if entry == Zeros(SQE_SIZE) then Ones(CQE_SIZE) else Zeros(CQE_SIZE);
      forall i: nat, entry ensures InvertsAt(complete, i, entry) {}
      InvertsSized(complete);
      var mem, k := IllLaidSpoils(d, count, size, complete);
      OneSpoiltIsEnough(mem, d, count, complete, k);
    }
  }

  lemma CompletionReads(answer: (nat, Sqe) -> int, k: nat, entry: seq<byte>, sqe: Sqe)
    requires |entry| == SQE_SIZE && DecodeSqe(entry, 0) == Some(sqe)
    ensures Completion(answer)(k, entry) == EncodeCqe(sqe.userData, answer(k, sqe))
  {}

  /** An entry reached in a well-laid ring is answered for what it says. */
  lemma AnsweredAt(mem: seq<byte>, d: RingDesc, count: nat, answer: (nat, Sqe) -> int, k: nat, sqe: Sqe)
    requires Sized(Completion(answer)) && Layout(d, Reached(|mem|, d, 0, count)) && k < Reached(|mem|, d, 0, count)
    requires EntryInBounds(|mem|, d, k) && DecodeSqe(mem[SqOff(d, k)..SqOff(d, k) + SQE_SIZE], 0) == Some(sqe)
    ensures Drain(mem, d, 0, count, Completion(answer)).0[CqOff(d, k)..CqOff(d, k) + CQE_SIZE]
         == EncodeCqe(sqe.userData, answer(k, sqe))
  {
    CompletedAt(mem, d, count, Completion(answer), k);
    CompletionReads(answer, k, mem[SqOff(d, k)..SqOff(d, k) + SQE_SIZE], sqe);
  }

  lemma CompletionSized(answer: (nat, Sqe) -> int)
    ensures Sized(Completion(answer))
  {}

  // ---- The loop ----

  /** A module's linear memory: every access is checked against its size. */
  class LinearMemory {
    const bytes: array<byte>

    constructor (size: nat)
      ensures fresh(bytes) && bytes[..] == Zeros(size)
    {
      bytes := new byte[size](_ => 0);
      new;
      assert bytes[..] == Zeros(size);
    }

    method Read(off: nat, n: nat) returns (r: Option<seq<byte>>)
      ensures r == if off + n <= bytes.Length then Some(bytes[off..off + n]) else None
    {
      return if off + n <= bytes.Length then Some(bytes[off..off + n]) else None;
    }

    method Write(off: nat, s: seq<byte>) returns (ok: bool)
      modifies bytes
      ensures ok <==> off + |s| <= bytes.Length
      ensures bytes[..] == if ok then Overwritten(old(bytes[..]), off, s) else old(bytes[..])
    {
      if off + |s| > bytes.Length { return false; }
      ghost var was := bytes[..];
      var k := 0;
      while k < |s|
        invariant k <= |s| && bytes[..] == Overwritten(was, off, s[..k])
      {
        bytes[off + k] := s[k];
        k := k + 1;
      }
      assert s[..k] == s;
      return true;
    }
  }

  class RingTable {
    const descs: array<RingDesc>

    ghost predicate Valid()
      reads this, descs
    {
      descs.Length == MAX_PROCS && forall p :: 0 <= p < MAX_PROCS && descs[p].active ==> 0 < descs[p].entries <= MAX_RING_ENTRIES
    }

    constructor ()
      ensures Valid() && fresh(descs) && forall p :: 0 <= p < MAX_PROCS ==> !descs[p].active
    {
      descs := new RingDesc[MAX_PROCS](_ => RingDesc(0, 0, 0, false));
    }

    /** `ring_setup`. */
    method Setup(p: nat, sqPtr: nat, cqPtr: nat, entries: nat) returns (code: int)
      requires Valid()
      modifies descs
      ensures Valid()
      ensures code == if p < MAX_PROCS && 0 < entries <= 1024 then 0 else -2
      ensures descs[..] == if code == 0 then old(descs[..])[p := RingDesc(sqPtr, cqPtr, entries, true)] else old(descs[..])
    {
      if p >= MAX_PROCS || entries == 0 || entries > MAX_RING_ENTRIES { return Code(E_INVAL); }
      descs[p] := RingDesc(sqPtr, cqPtr, entries, true);
      return 0;
    }

    /** `ring_submit`: refused without a ring or a memory; otherwise the drain's count. */
    method Submit(p: nat, n: nat, memory: Option<LinearMemory>, answer: (nat, Sqe) -> int) returns (code: int)
      requires Valid() && (memory.Some? ==> memory.value.bytes as object != descs)
      modifies if memory.Some? then {memory.value.bytes} else {}
      ensures Valid()
      ensures p >= MAX_PROCS || !descs[p].active ==>
        code == -2 && (memory.Some? ==> memory.value.bytes[..] == old(memory.value.bytes[..]))
      ensures p < MAX_PROCS && descs[p].active ==>
        if memory.None? then code == -3
        else
          var count := if n < descs[p].entries then n else descs[p].entries;
          Sized(Completion(answer))
          && (memory.value.bytes[..], code) == Drain(old(memory.value.bytes[..]), descs[p], 0, count, Completion(answer))
    {
      if p >= MAX_PROCS { return Code(E_INVAL); }
      var d := descs[p];
      if !d.active { return Code(E_INVAL); }
      if memory.None? { return Code(E_NOMEM); }
      var count := if n < d.entries then n else d.entries;
      CompletionSized(answer);
      var processed := DrainLoop(memory.value, d, count, Completion(answer));
      return processed;
    }
  }

  /** `complete` is decoding, dispatching and encoding an entry. */
  method DrainLoop(memory: LinearMemory, d: RingDesc, count: nat, complete: Completer) returns (processed: nat)
    requires Sized(complete)
    modifies memory.bytes
    ensures (memory.bytes[..], processed) == Drain(old(memory.bytes[..]), d, 0, count, complete)
  {
    processed := 0;
    while processed < count
      invariant processed <= count
      invariant Drain(memory.bytes[..], d, processed, count, complete) == Drain(old(memory.bytes[..]), d, 0, count, complete)
    {
      var done := DrainOne(memory, d, processed, count, complete);
      if !done { return; }
      processed := processed + 1;
    }
  }

  /** One turn of the loop: an entry is completed, or nothing is written and the drain ends. */
  method DrainOne(memory: LinearMemory, d: RingDesc, i: nat, count: nat, complete: Completer) returns (done: bool)
    requires i < count && Sized(complete)
    modifies memory.bytes
    ensures done ==> Drain(memory.bytes[..], d, i + 1, count, complete) == Drain(old(memory.bytes[..]), d, i, count, complete)
    ensures !done ==> (memory.bytes[..], i) == Drain(old(memory.bytes[..]), d, i, count, complete)
  {
    ghost var mem := memory.bytes[..];
    var copy := memory.Read(SqOff(d, i), SQE_SIZE);
    if copy.None? { return false; }
    assert copy.value == mem[SqOff(d, i)..SqOff(d, i) + SQE_SIZE];
    done := memory.Write(CqOff(d, i), complete(i, copy.value));
  }
}
