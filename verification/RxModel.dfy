/** The VirtIO receive queue as four places a descriptor can be, and what every
    interleaving of device and driver steps keeps. */
module RxModel {
  import opened Sequences

  const QUEUE_SIZE: nat := 8

  /** A completion: a descriptor and the bytes the device wrote. */
  datatype Elem = Elem(id: nat, len: nat)

  /** Offered to the device, taken by it, completed but not yet popped, and with the driver. */
  datatype Rx = Rx(available: seq<nat>, device: set<nat>, used: seq<Elem>, driver: set<nat>)

  function UsedIds(used: seq<Elem>): (r: seq<nat>)
    ensures |r| == |used|
  {
    seq(|used|, i requires 0 <= i < |used| => used[i].id)
  }

  /** Where descriptor `d` is, counting each place it is in. */
  ghost function Places(st: Rx, d: nat): nat {
    (if d in st.available then 1 else 0) + (if d in st.device then 1 else 0)
    + (if d in UsedIds(st.used) then 1 else 0) + (if d in st.driver then 1 else 0)
  }

  /** Every descriptor is in exactly one place, once, and nothing else is anywhere. */
  ghost predicate Partition(st: Rx) {
    && NoRepeats(st.available) && NoRepeats(UsedIds(st.used))
    && forall d: nat :: Places(st, d) == if d < QUEUE_SIZE then 1 else 0
  }

  function AllDescriptors(): seq<nat> { [0, 1, 2, 3, 4, 5, 6, 7] }

  /** After `populate_rx`: all descriptors offered, in order. */
  function Initial(): Rx { Rx(AllDescriptors(), {}, [], {}) }

  lemma InitialPartition()
    ensures Partition(Initial())
  {
    forall d: nat ensures Places(Initial(), d) == if d < QUEUE_SIZE then 1 else 0 {
      if d < QUEUE_SIZE { assert AllDescriptors()[d] == d; }
    }
  }

  // ---- Steps ----

  /** The device takes the next offered descriptor, or completes one it holds; the driver
      pops the next completion, or offers a descriptor again. */
  datatype Step = Take | Complete(id: nat, len: nat) | Pop | Recycle(id: nat)

  /** A conforming device completes only what it holds; each token is recycled once. */
  predicate Enabled(st: Rx, s: Step) {
    match s
    case Take => st.available != []
    case Complete(d, _) => d in st.device
    case Pop => st.used != []
    case Recycle(d) => d in st.driver
  }

  function Next(st: Rx, s: Step): Rx {
    match s
    case Take => if st.available == [] then st else st.(available := st.available[1..], device := st.device + {st.available[0]})
    case Complete(d, len) => st.(device := st.device - {d}, used := st.used + [Elem(d, len)])
    case Pop => if st.used == [] then st else st.(used := st.used[1..], driver := st.driver + {st.used[0].id})
    case Recycle(d) => st.(driver := st.driver - {d}, available := st.available + [d])
  }

  lemma UsedMoves(used: seq<Elem>, e: Elem)
    ensures UsedIds(used + [e]) == UsedIds(used) + [e.id]
    ensures used != [] ==> UsedIds(used[1..]) == UsedIds(used)[1..] && UsedIds(used)[0] == used[0].id
  {}

  /** A conforming step keeps every descriptor in exactly one place. */
  lemma StepKeepsPartition(st: Rx, s: Step)
    requires Partition(st) && Enabled(st, s)
    ensures Partition(Next(st, s))
  {
    UsedMoves(st.used, if s.Complete? then Elem(s.id, s.len) else Elem(0, 0));
    assert s.Complete? || s.Recycle? ==> Places(st, s.id) >= 1;
    match s {
      case Take => PopFront(st.available); assert Places(st, st.available[0]) == 1;
      case Complete(d, _) => PushBack(UsedIds(st.used), d); assert Places(st, d) == 1;
      case Pop => PopFront(UsedIds(st.used)); assert Places(st, st.used[0].id) == 1;
      case Recycle(d) => PushBack(st.available, d); assert Places(st, d) == 1;
    }
    var st' := Next(st, s);
    forall d: nat ensures Places(st', d) == if d < QUEUE_SIZE then 1 else 0 {
      assert Places(st, d) == if d < QUEUE_SIZE then 1 else 0;
    }
  }

  /** Offering a descriptor again keeps the partition exactly when the driver holds it. */
  lemma RecycleKeepsIff(st: Rx, d: nat)
    requires Partition(st)
    ensures Partition(Next(st, Recycle(d))) <==> d in st.driver
  {
    if d in st.driver { StepKeepsPartition(st, Recycle(d)); }
    else {
      PushBack(st.available, d);
      assert Places(st, d) == if d < QUEUE_SIZE then 1 else 0;
      if d !in st.available { assert Places(Next(st, Recycle(d)), d) == Places(st, d) + 1; }
    }
  }

  /** Completing a descriptor keeps the partition exactly when the device holds it. */
  lemma CompleteKeepsIff(st: Rx, d: nat, len: nat)
    requires Partition(st)
    ensures Partition(Next(st, Complete(d, len))) <==> d in st.device
  {
    if d in st.device { StepKeepsPartition(st, Complete(d, len)); }
    else {
      UsedMoves(st.used, Elem(d, len));
      PushBack(UsedIds(st.used), d);
      assert Places(st, d) == if d < QUEUE_SIZE then 1 else 0;
      if d !in UsedIds(st.used) { assert Places(Next(st, Complete(d, len)), d) == Places(st, d) + 1; }
    }
  }

  // ---- Counting ----

  lemma {:induction false} NoRepeatsCount(s: seq<nat>, bound: set<nat>)
    requires NoRepeats(s) && forall i :: 0 <= i < |s| ==> s[i] in bound
    ensures |s| <= |bound|
  {
    if s != [] {
      PopFront(s);
      assert forall i :: 0 <= i < |s[1..]| ==> s[1..][i] in bound - {s[0]};
      NoRepeatsCount(s[1..], bound - {s[0]});
    }
  }

  /** A ring that may still be appended to has room. */
  lemma RoomLeft(st: Rx)
    requires Partition(st)
    ensures |st.available| <= QUEUE_SIZE && |st.used| <= QUEUE_SIZE
    ensures st.device != {} ==> |st.used| < QUEUE_SIZE
    ensures st.driver != {} ==> |st.available| < QUEUE_SIZE
  {
    var all := {0, 1, 2, 3, 4, 5, 6, 7};
    forall i | 0 <= i < |st.available| ensures st.available[i] in all { InRange(st, st.available[i]); }
    forall i | 0 <= i < |st.used| ensures UsedIds(st.used)[i] in all { InRange(st, UsedIds(st.used)[i]); }
    NoRepeatsCount(st.available, all);
    NoRepeatsCount(UsedIds(st.used), all);
    if st.device != {} {
      var d :| d in st.device;
      InRange(st, d);
      assert forall i :: 0 <= i < |st.used| ==> UsedIds(st.used)[i] != d;
      NoRepeatsCount(UsedIds(st.used), all - {d});
    }
    if st.driver != {} {
      var d :| d in st.driver;
      InRange(st, d);
      assert forall i :: 0 <= i < |st.available| ==> st.available[i] != d;
      NoRepeatsCount(st.available, all - {d});
    }
  }

  lemma InRange(st: Rx, d: nat)
    requires Partition(st) && Places(st, d) >= 1
    ensures d in {0, 1, 2, 3, 4, 5, 6, 7} && Places(st, d) == 1
  {}

  // ---- Runs ----

  ghost predicate Run(states: seq<Rx>, steps: seq<Step>) {
    && |states| == |steps| + 1 && states[0] == Initial()
    && forall i :: 0 <= i < |steps| ==> Enabled(states[i], steps[i]) && states[i + 1] == Next(states[i], steps[i])
  }

  /** At every interleaving, the four places partition the descriptors. */
  lemma {:induction false} RunKeepsPartition(states: seq<Rx>, steps: seq<Step>, i: nat)
    requires Run(states, steps) && i < |states|
    ensures Partition(states[i])
  {
    if i == 0 { InitialPartition(); }
    else {
      RunKeepsPartition(states, steps, i - 1);
      StepKeepsPartition(states[i - 1], steps[i - 1]);
    }
  }
}
