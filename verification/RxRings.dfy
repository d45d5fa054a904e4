/** The receive rings in shared memory, with their 16-bit indices that wrap. Driver and
    device steps move them exactly as the four-place model says. */
module RxRings {
  import opened Wrappers
  import opened RxModel

  const U16: nat := 0x1_0000
  const U32: nat := 0x1_0000_0000
  const ETH_FRAME_MAX: nat := 1536
  const NET_HDR_LEN: nat := 12

  // ---- Ring arithmetic ----

  /** The ring slot of a running count, or of the 16-bit index it wraps to. */
  function SlotOf(n: nat): (r: nat)
    ensures r < QUEUE_SIZE
  {
    n % QUEUE_SIZE
  }

  /** `wrapping_add(1)`. */
  function Bump(idx: nat): nat { (idx + 1) % U16 }

  lemma IndexWraps(n: nat)
    ensures Bump(n % U16) == (n + 1) % U16 && SlotOf(n % U16) == SlotOf(n)
  {}

  /** Counts less than a ring apart have different slots and different indices. */
  lemma SlotsDiffer(a: nat, b: nat)
    requires a < b
    ensures b < a + QUEUE_SIZE ==> SlotOf(a) != SlotOf(b)
    ensures b < a + U16 ==> a % U16 != b % U16
  {}

  /** The ring holds `contents` from count `first` on. */
  ghost predicate RingHolds<T>(ring: seq<T>, first: nat, contents: seq<T>) {
    && |ring| == QUEUE_SIZE && |contents| <= QUEUE_SIZE
    && forall k: nat {:trigger contents[k]} :: k < |contents| ==> ring[SlotOf(first + k)] == contents[k]
  }

  /** A ring and its two indices: `next` is where it is written, `at` where it is read. */
  ghost predicate Tracks<T>(ring: seq<T>, first: nat, contents: seq<T>, next: nat, at: nat) {
    RingHolds(ring, first, contents) && next == (first + |contents|) % U16 && at == first % U16
  }

  /** Writing the next slot overwrites no live entry. */
  lemma RingAppends<T>(ring: seq<T>, first: nat, contents: seq<T>, v: T)
    requires RingHolds(ring, first, contents) && |contents| < QUEUE_SIZE
    ensures RingHolds(ring[SlotOf(first + |contents|) := v], first, contents + [v])
    ensures RingHolds(ring[SlotOf(first + |contents|) := v], first, contents)
  {
    forall k: nat {:trigger contents[k]} | k < |contents| ensures SlotOf(first + k) != SlotOf(first + |contents|) {
      SlotsDiffer(first + k, first + |contents|);
    }
  }

  /** In a full ring the next slot is the oldest entry's. */
  lemma FullRing<T>(ring: seq<T>, first: nat, contents: seq<T>)
    requires RingHolds(ring, first, contents) && |contents| == QUEUE_SIZE
    ensures SlotOf(first + |contents|) == SlotOf(first) && ring[SlotOf(first)] == contents[0]
  {
    assert SlotOf(first + 0) == SlotOf(first);
  }

  lemma RingDrops<T>(ring: seq<T>, first: nat, contents: seq<T>)
    requires RingHolds(ring, first, contents) && contents != []
    ensures ring[SlotOf(first)] == contents[0] && RingHolds(ring, first + 1, contents[1..])
  {
    assert SlotOf(first + 0) == SlotOf(first);
    forall k: nat | k < |contents[1..]| ensures ring[SlotOf(first + 1 + k)] == contents[1..][k] {
      assert contents[k + 1] == contents[1..][k];
    }
  }

  // ---- Buffers ----

  /** A descriptor's buffer: its offset and length, and that the device may write it. */
  datatype Desc = Desc(bufOff: nat, len: nat, deviceWrites: bool)

  function BufOff(base: nat, d: nat): nat { base + d * ETH_FRAME_MAX }

  function DescFor(base: nat, d: nat): Desc { Desc(BufOff(base, d), ETH_FRAME_MAX, true) }

  /** The buffer offset in the low half, the length in the high half; zero for no packet. */
  function Packed(off: nat, len: nat): nat { off + len * U32 }

  /** What a pop answers for a completion; an id past the buffers counts as no packet. */
  function PackedFor(base: nat, e: Elem): nat {
    if e.id >= QUEUE_SIZE then 0 else Packed(BufOff(base, e.id), e.len)
  }

  datatype Token = Token(bufOff: nat, usedLen: nat, desc: nat)

  function TokenOf(base: nat, packed: nat): Token
    requires base <= packed % U32
  {
    Token(packed % U32, packed / U32, (packed % U32 - base) / ETH_FRAME_MAX)
  }

  /** `receive` recovers the popped descriptor from its buffer's offset. */
  lemma TokenRecovers(base: nat, d: nat, len: nat)
    requires d < QUEUE_SIZE && BufOff(base, QUEUE_SIZE) <= U32
    ensures var packed := Packed(BufOff(base, d), len);
      && base <= packed % U32 && TokenOf(base, packed) == Token(BufOff(base, d), len, d)
      && (packed == 0 <==> base == 0 && d == 0 && len == 0)
  {
    var off := BufOff(base, d);
    Unpack(off, len);
    assert off - base == d * ETH_FRAME_MAX;
  }

  lemma Unpack(off: nat, len: nat)
    requires off < U32
    ensures Packed(off, len) % U32 == off && Packed(off, len) / U32 == len
  {}

  /** The frame a token exposes: past the header, its length clamped to the buffer. */
  function FrameOff(t: Token): nat { t.bufOff + NET_HDR_LEN }

  function FrameLen(t: Token): nat {
    var len := if t.usedLen < NET_HDR_LEN then 0 else t.usedLen - NET_HDR_LEN;
    if len < ETH_FRAME_MAX - NET_HDR_LEN then len else ETH_FRAME_MAX - NET_HDR_LEN
  }

  /** Where the frame of a buffer at `start` ends, when the device says it wrote `written`
      bytes: with the last byte written, but within the buffer, and not before the frame. */
  function FrameEnd(start: nat, written: nat): nat {
    if written <= 12 then start + 12 else if written <= 1536 then start + written else start + 1536
  }

  lemma FrameIs(t: Token)
    ensures FrameOff(t) == t.bufOff + 12 && FrameOff(t) + FrameLen(t) == FrameEnd(t.bufOff, t.usedLen)
  {}

  /** What is exposed of a completion is what the device wrote after its 12-byte header. */
  lemma FrameIsWhatWasWritten<T>(mem: seq<T>, base: nat, e: Elem, header: seq<T>, frame: seq<T>)
    requires e.id < 8 && e.len == |header| + |frame| <= 1536 && |header| == 12
    requires base + 1536 * e.id + e.len <= |mem| && mem[base + 1536 * e.id..][..e.len] == header + frame
    ensures var start := base + 1536 * e.id;
      start + 12 <= FrameEnd(start, e.len) <= |mem| && mem[start + 12..FrameEnd(start, e.len)] == frame
  {
    var start := base + 1536 * e.id;
    assert mem[start..][..e.len] == mem[start..start + e.len];
    assert mem[start..start + e.len][12..] == mem[start + 12..start + e.len];
    assert (header + frame)[12..] == frame;
  }

  /** The buffers lie end to end, 1536 bytes each, and the device may write all of each. */
  lemma BuffersTile(base: nat, d: nat)
    ensures DescFor(base, d) == Desc(base + 1536 * d, 1536, true)
    ensures BufOff(base, d) == base + 1536 * d && BufOff(base, d + 1) == BufOff(base, d) + 1536
  {}

  /** Whatever length the device reports, the frame lies inside the token's own buffer,
      and inside no other. */
  lemma FrameInBuffer(base: nat, d: nat, len: nat)
    requires d < QUEUE_SIZE
    ensures var t := Token(BufOff(base, d), len, d);
      BufOff(base, d) < FrameOff(t) && FrameOff(t) + FrameLen(t) <= BufOff(base, d + 1)
  {}

  // ---- The rings ----

  class RxQueue {
    const base: nat
    const desc: array<Desc>
    const avail: array<nat>
    const used: array<Elem>
    /** Shared indices: the driver writes `availIdx`, the device `usedIdx`. */
    var availIdx: nat
    var usedIdx: nat
    /** The driver's own: completions seen, and the next index to offer. */
    var seen: nat
    var availNext: nat
    /** The device's own: offers taken. */
    var taken: nat

    ghost var st: Rx
    ghost var takenCount: nat
    ghost var seenCount: nat

    ghost predicate Shaped()
      reads this
    {
      desc.Length == QUEUE_SIZE && avail.Length == QUEUE_SIZE && used.Length == QUEUE_SIZE && BufOff(base, QUEUE_SIZE) <= U32
    }

    /** The rings and indices hold what the state says, whoever misbehaved. */
    ghost predicate Rings()
      reads this, desc, avail, used
    {
      && Shaped()
      && Tracks(avail[..], takenCount, st.available, availIdx, taken) && availNext == availIdx
      && Tracks(used[..], seenCount, st.used, usedIdx, seen)
      && forall d: nat :: d < QUEUE_SIZE ==> desc[d] == DescFor(base, d)
    }

    /** And every descriptor is in one place: what a conforming device and caller keep. */
    ghost predicate Valid()
      reads this, desc, avail, used
    {
      Rings() && Partition(st)
    }

    constructor (base: nat)
      requires BufOff(base, QUEUE_SIZE) <= U32
      ensures Shaped() && this.base == base && fresh(desc) && fresh(avail) && fresh(used)
      ensures availIdx == usedIdx == seen == availNext == taken == takenCount == seenCount == 0
    {
      this.base := base;
      desc := new Desc[QUEUE_SIZE](_ => Desc(0, 0, false));
      avail := new nat[QUEUE_SIZE](_ => 0);
      used := new Elem[QUEUE_SIZE](_ => Elem(0, 0));
      availIdx, usedIdx, seen, availNext, taken := 0, 0, 0, 0, 0;
      takenCount, seenCount := 0, 0;
      st := Rx([], {}, [], {});
    }

    /** `populate_rx`: a descriptor for each buffer, all offered, the index last. The
        parameters are what the host calls answer. */
    method Populate(setBuf: seq<bool>, notify: bool) returns (ok: bool)
      requires Shaped() && |setBuf| == QUEUE_SIZE
      requires availIdx == usedIdx == seen == taken == takenCount == seenCount == 0
      modifies this, desc, avail
      ensures ok <==> (forall i :: 0 <= i < QUEUE_SIZE ==> setBuf[i]) && notify
      ensures (forall i :: 0 <= i < QUEUE_SIZE ==> setBuf[i]) ==> Valid() && st == Initial()
    {
      ok := WriteDescs(setBuf);
      if !ok { return false; }
      WriteOffers();
      InitialPartition();
      AllOffered(used[..]);
      Publish(Initial());
      return notify;
    }

    /** The index is written last. */
    method Publish(ghost initial: Rx)
      requires Shaped() && Partition(initial) && availIdx == usedIdx == seen == taken == takenCount == seenCount == 0
      requires Tracks(avail[..], 0, initial.available, QUEUE_SIZE, 0) && Tracks(used[..], 0, initial.used, 0, 0)
      requires forall d: nat :: d < QUEUE_SIZE ==> desc[d] == DescFor(base, d)
      modifies this
      ensures Valid() && st == initial
    {
      availIdx, availNext := QUEUE_SIZE, QUEUE_SIZE;
      st := initial;
    }

    method WriteDescs(setBuf: seq<bool>) returns (ok: bool)
      requires Shaped() && |setBuf| == QUEUE_SIZE
      modifies desc
      ensures ok <==> forall i :: 0 <= i < QUEUE_SIZE ==> setBuf[i]
      ensures ok ==> forall d: nat :: d < QUEUE_SIZE ==> desc[d] == DescFor(base, d)
    {
      var i := 0;
      while i < QUEUE_SIZE
        invariant i <= QUEUE_SIZE && forall k :: 0 <= k < i ==> setBuf[k] && desc[k] == DescFor(base, k)
      {
        if !setBuf[i] { return false; }
        desc[i] := DescFor(base, i);
        i := i + 1;
      }
      return true;
    }

    method WriteOffers()
      requires Shaped()
      modifies avail
      ensures avail[..] == AllDescriptors()
    {
      var i := 0;
      while i < QUEUE_SIZE
        invariant i <= QUEUE_SIZE && forall k :: 0 <= k < i ==> avail[k] == AllDescriptors()[k]
      {
        assert AllDescriptors()[i] == i;
        avail[i] := i;
        i := i + 1;
      }
    }

    /** The device takes the next offer, if the index says there is one. */
    method DeviceTake() returns (r: Option<nat>)
      requires Rings()
      modifies this
      ensures Rings() && st == Next(old(st), Take)
      ensures r == if old(st).available == [] then None else Some(old(st).available[0])
      ensures old(Partition(st)) ==> Partition(st)
    {
      EmptyIff(takenCount, |st.available|);
      if taken == availIdx { return None; }
      RingDrops(avail[..], takenCount, st.available);
      if Partition(st) { StepKeepsPartition(st, Take); }
      IndexWraps(takenCount);
      r := Some(avail[SlotOf(taken)]);
      taken := Bump(taken);
      takenCount := takenCount + 1;
      st := Next(st, Take);
    }

    /** The device completes a descriptor, any descriptor. While a used slot is free no live
        entry is overwritten, and each descriptor stays in one place exactly when the device
        held this one; a ninth completion overwrites the oldest unseen one. */
    method DeviceComplete(d: nat, len: nat)
      requires Rings()
      modifies this, used
      ensures seenCount == old(seenCount)
      ensures old(|st.used|) < QUEUE_SIZE ==>
        && Rings() && st == Next(old(st), Complete(d, len)) && RingHolds(used[..], seenCount, old(st).used)
        && (old(Partition(st)) ==> (Partition(st) <==> d in old(st).device))
      ensures old(|st.used|) == QUEUE_SIZE ==>
        used[..] == old(used[..])[SlotOf(seenCount) := Elem(d, len)] && old(used[..])[SlotOf(seenCount)] == old(st).used[0]
    {
      ghost var n, was := seenCount + |st.used|, used[..];
      IndexWraps(n);
      used[SlotOf(usedIdx)] := Elem(d, len);
      assert used[..] == was[SlotOf(n) := Elem(d, len)];
      usedIdx := Bump(usedIdx);
      if |st.used| == QUEUE_SIZE {
        FullRing(was, seenCount, st.used);
      } else {
        if Partition(st) { CompleteKeepsIff(st, d, len); }
        RingAppends(was, seenCount, st.used, Elem(d, len));
        st := Next(st, Complete(d, len));
      }
    }

    /** `driver_rx_pop`: the oldest unseen completion, zero when there is none and when its
        id lies past the buffers. */
    method Pop() returns (packed: nat)
      requires Rings()
      modifies this
      ensures Rings() && st == Next(old(st), RxModel.Pop)
      ensures packed == if old(st).used == [] then 0 else PackedFor(base, old(st).used[0])
      ensures old(Partition(st)) ==> Partition(st) && (old(st).used != [] ==> old(st).used[0].id < QUEUE_SIZE)
    {
      EmptyIff(seenCount, |st.used|);
      if usedIdx == seen { return 0; }
      RingDrops(used[..], seenCount, st.used);
      if Partition(st) {
        StepKeepsPartition(st, RxModel.Pop);
        FrontInRange(st);
      }
      IndexWraps(seenCount);
      var e := used[SlotOf(seen)];
      seen := Bump(seen);
      seenCount := seenCount + 1;
      st := Next(st, RxModel.Pop);
      return PackedFor(base, e);
    }

    /** `driver_rx_recycle`: refused outside the buffers or when the host refuses the buffer;
        otherwise offered again, as `Offered` says. */
    method Recycle(d: nat, setBuf: bool, notify: bool) returns (ok: bool)
      requires Rings()
      modifies this, desc, avail
      ensures ok <==> d < QUEUE_SIZE && setBuf && notify
      ensures d >= QUEUE_SIZE || !setBuf ==> Rings() && st == old(st)
      ensures d < QUEUE_SIZE && setBuf ==> Offered(d)
    {
      if d >= QUEUE_SIZE || !setBuf { return false; }
      desc[d] := DescFor(base, d);
      Offer(d);
      return notify;
    }

    /** While the ring has room, the descriptor joins the offers past every live one, and each
        stays in one place exactly when the driver held it; a ninth offer overwrites the oldest. */
    twostate predicate Offered(d: nat)
      reads this, desc, avail, used
    {
      && takenCount == old(takenCount) && avail.Length == QUEUE_SIZE
      && (old(|st.available|) < QUEUE_SIZE ==>
            && Rings() && st == Next(old(st), RxModel.Recycle(d))
            && RingHolds(avail[..], takenCount, old(st).available)
            && (old(Partition(st)) ==> (Partition(st) <==> d in old(st).driver)))
      && (old(|st.available|) == QUEUE_SIZE ==>
            avail[..] == old(avail[..])[SlotOf(takenCount) := d] && old(avail[..])[SlotOf(takenCount)] == old(st).available[0])
    }

    method Offer(d: nat)
      requires Rings()
      modifies this, avail
      ensures Offered(d)
    {
      ghost var n, was := takenCount + |st.available|, avail[..];
      IndexWraps(n);
      avail[SlotOf(availNext)] := d;
      assert avail[..] == was[SlotOf(n) := d];
      availNext := Bump(availNext);
      availIdx := availNext;
      if |st.available| == QUEUE_SIZE {
        FullRing(was, takenCount, st.available);
      } else {
        if Partition(st) { RecycleKeepsIff(st, d); }
        RingAppends(was, takenCount, st.available, d);
        st := Next(st, RxModel.Recycle(d));
      }
    }

    /** `receive`: the next packet's token, or none. */
    method Receive() returns (r: Option<Token>)
      requires Rings()
      modifies this
      ensures Rings() && st == Next(old(st), RxModel.Pop)
      ensures old(Partition(st)) ==> Partition(st)
      ensures old(st).used == [] ==> r == None
      ensures old(st).used != [] ==>
        var e := old(st).used[0];
        r == if e.id >= QUEUE_SIZE || (base == 0 && e.id == 0 && e.len == 0) then None else Some(Token(base + 1536 * e.id, e.len, e.id))
    {
      ghost var was := st;
      var packed := Pop();
      if was.used != [] && was.used[0].id < QUEUE_SIZE { TokenRecovers(base, was.used[0].id, was.used[0].len); }
      return if packed == 0 then None else Some(TokenOf(base, packed));
    }

    /** `consume` of a received token: from the first byte past the header to the last that the
        device wrote, and within the token's buffer whatever the device has done; then the
        buffer is offered again. */
    method Consume(t: Token, setBuf: bool, notify: bool) returns (off: nat, len: nat)
      requires Rings() && t.desc < QUEUE_SIZE && t.bufOff == BufOff(base, t.desc)
      modifies this, desc, avail
      ensures off == base + 1536 * t.desc + 12 && off + len == FrameEnd(base + 1536 * t.desc, t.usedLen)
      ensures BufOff(base, t.desc) < off && off + len <= BufOff(base, t.desc + 1)
      ensures if setBuf then Offered(t.desc) else Rings() && st == old(st)
    {
      FrameInBuffer(base, t.desc, t.usedLen);
      FrameIs(t);
      off, len := FrameOff(t), FrameLen(t);
      var _ := Recycle(t.desc, setBuf, notify);
    }
  }

  lemma AllOffered(used: seq<Elem>)
    requires |used| == QUEUE_SIZE
    ensures Tracks(AllDescriptors(), 0, Initial().available, QUEUE_SIZE, 0) && Tracks(used, 0, Initial().used, 0, 0)
  {}

  lemma EmptyIff(first: nat, n: nat)
    requires n <= QUEUE_SIZE
    ensures first % U16 == (first + n) % U16 <==> n == 0
  {
    if n > 0 { SlotsDiffer(first, first + n); }
  }

  lemma FrontInRange(st: Rx)
    requires Partition(st) && st.used != []
    ensures st.used[0].id < QUEUE_SIZE
  {
    assert UsedIds(st.used)[0] == st.used[0].id;
    InRange(st, st.used[0].id);
  }

  lemma HeldInRange(st: Rx, d: nat)
    requires Partition(st) && d in st.driver
    ensures d < QUEUE_SIZE
  {
    InRange(st, d);
  }
}
