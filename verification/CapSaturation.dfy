/** Slots whose generation has saturated: exactly when a fill is safe, and a run from boot
    that shows what the missing refusal allows. */
module CapSaturation {
  import opened Wrappers
  import opened CapTypes
  import opened CapState
  import opened CapGenerations
  import opened CapRuns
  import opened CapKernel

  // ---- When a fill is safe ----

  /** From `st` on, over every run that respects saturation, slot `k` shows its generation
      exactly while its occupant stays. */
  ghost predicate NamesOneOccupancy(st: State, k: nat) {
    forall states, calls, j {:trigger Run(states, calls), HeldThroughout(states, 0, j, k)} ::
      Run(states, calls) && states[0] == st && Respects(states, calls) && 0 <= j < |states| ==>
        (Generation(states[j], k) == Generation(st, k) <==> HeldThroughout(states, 0, j, k))
  }

  /** The slot that a call of `procId` fills, when it fills one. */
  function Target(call: Call): Option<nat> {
    match call
    case DoMint(_, t, _, _) => Some(t)
    case DoCopy(_, t) => Some(t)
    case DoSocketCreate(t, _) => Some(t)
    case _ => None
  }

  lemma FilledIsTarget(st: State, procId: nat, call: Call, k: nat)
    requires WellFormed(st) && k < TOTAL_SLOTS && !Occupied(st, k) && CapAt(Next(st, procId, call), k).kind != Empty
    ensures Target(call).Some? && InRange(procId, Target(call).value) && k == Index(procId, Target(call).value)
    ensures Generation(Next(st, procId, call), k) == st.gens[k]
  {
    if call.DoRevoke? && Outcome(st, procId, call).Ok? { RevokeSlots(st, Index(procId, call.slot), k); }
  }

  /** A fill of slot `k` from a sound state makes slot and generation name one occupancy,
      over every later run that respects saturation, exactly when the generation had not
      saturated: the refusal the CSpace documentation asks for, and no stronger. */
  lemma FillIsSafeIff(st: State, procId: nat, call: Call, k: nat)
    requires GenerationsOk(st) && k < TOTAL_SLOTS && !Occupied(st, k) && CapAt(Next(st, procId, call), k).kind != Empty
    ensures NamesOneOccupancy(Next(st, procId, call), k) <==> st.gens[k] < MAX_GEN
  {
    var st' := Next(st, procId, call);
    FilledIsTarget(st, procId, call, k);
    if st.gens[k] < MAX_GEN {
      CallKeepsGenerations(st, procId, call);
      forall states, calls, j: nat {:trigger Run(states, calls), HeldThroughout(states, 0, j, k)} |
        Run(states, calls) && states[0] == st' && Respects(states, calls) && 0 <= j < |states|
        ensures Generation(states[j], k) == Generation(st', k) <==> HeldThroughout(states, 0, j, k)
      {
        NoResurrection(states, calls, 0, j, k);
      }
    } else {
      DeleteShowsNothing(st', procId, Target(call).value);
    }
  }

  /** Deleting at the saturated generation empties the slot and leaves the generation. */
  lemma DeleteShowsNothing(st: State, procId: nat, slot: nat)
    requires WellFormed(st) && InRange(procId, slot)
    requires CapAt(st, Index(procId, slot)).kind != Empty && Generation(st, Index(procId, slot)) == MAX_GEN
    ensures !NamesOneOccupancy(st, Index(procId, slot))
  {
    var k := Index(procId, slot);
    var states, calls := [st, Next(st, procId, DoDelete(slot))], [(procId, DoDelete(slot))];
    assert Follows(st, procId, DoDelete(slot), states[1]);
    assert Run(states, calls) && Respects(states, calls);
    assert CapAt(states[1], k) == EMPTY_CAP && Generation(states[1], k) == MAX_GEN;
    assert !HeldThroughout(states, 0, 1, k);
  }

  // ---- When an emptied slot keeps or revives a child ----

  /** Emptying a slot by any call but socket close leaves a child's link live exactly when
      the link was recorded at the saturated generation the slot still shows. */
  lemma ClearLeavesLinkIff(st: State, c: nat, p: nat)
    requires WellFormed(st) && LinksOk(st) && c < TOTAL_SLOTS && p < TOTAL_SLOTS && c != p && Occupied(st, c)
    requires st.slots[c].parent.At? && ParentIndex(st.slots[c]) == p
    ensures IsChild(ClearSlot(st, p), c, p) <==> st.gens[p] == MAX_GEN && st.slots[c].parent.generation == MAX_GEN
  {
    assert LinkOk(st, st.slots[c]);
  }

  /** Socket close wraps: it makes a link to the slot live exactly when the generation had
      saturated and the link was recorded at generation zero. */
  lemma CloseRevivesLinkIff(st: State, procId: nat, slot: nat, c: nat)
    requires WellFormed(st) && LinksOk(st) && c < TOTAL_SLOTS && Occupied(st, c) && SocketClose(st, procId, slot).Ok?
    requires c != Index(procId, slot) && st.slots[c].parent.At? && ParentIndex(st.slots[c]) == Index(procId, slot)
    ensures var st' := SocketClose(st, procId, slot).value;
      && |st'.slots| == |st'.gens| == TOTAL_SLOTS
      && (IsChild(st', c, Index(procId, slot)) <==> st.gens[Index(procId, slot)] == MAX_GEN && st.slots[c].parent.generation == 0)
  {
    assert LinkOk(st, st.slots[c]);
  }

  // ---- Runs ----

  /** The state with another generation in slot `k`. */
  ghost function AtGeneration(st: State, k: nat, g: nat): State
    requires k < |st.gens|
  {
    st.(gens := st.gens[k := g])
  }

  /** A pair can be minted and deleted again: a pooled cap with an allocated object, and an empty slot. */
  ghost predicate CanChurn(st: State, procId: nat, src: nat, t: nat) {
    && WellFormed(st) && InRange(procId, src) && InRange(procId, t)
    && var s, k := Index(procId, src), Index(procId, t);
    && Occupied(st, s) && st.slots[k] == EMPTY_CAP && Pooled(st.slots[s].kind)
    && var key := (st.slots[s].kind, st.slots[s].poolIndex);
    && key in st.objs && 0 < st.objs[key] < MAX_GEN
  }

  /** Minting into a slot and deleting the cap again changes its generation only. */
  lemma PairBumps(st: State, procId: nat, src: nat, t: nat)
    requires CanChurn(st, procId, src, t) && st.gens[Index(procId, t)] < MAX_GEN
    ensures var st1 := Next(st, procId, DoMint(src, t, 0, 0));
      && WellFormed(st1)
      && Next(st1, procId, DoDelete(t)) == AtGeneration(st, Index(procId, t), st.gens[Index(procId, t)] + 1)
  {
    var s, k := Index(procId, src), Index(procId, t);
    var key := (st.slots[s].kind, st.slots[s].poolIndex);
    NextWellFormed(st, procId, DoMint(src, t, 0, 0));
    var st1 := Next(st, procId, DoMint(src, t, 0, 0));
    MintsNothing(st, procId, src, t);
    assert st1.slots[k := EMPTY_CAP] == st.slots;
    assert st1.objs[key := st.objs[key]] == st.objs;
  }

  /** A mint with no rights from any cap succeeds. */
  lemma MintsNothing(st: State, procId: nat, src: nat, t: nat)
    requires CanChurn(st, procId, src, t)
    ensures var s, k := Index(procId, src), Index(procId, t);
      var c := Derive(st.slots[s], At(procId, src, st.gens[s]), 0, 0);
      && c.Ok? && c.value.kind == st.slots[s].kind && c.value.poolIndex == st.slots[s].poolIndex
      && c.value.parent == At(procId, src, st.gens[s])
      && Next(st, procId, DoMint(src, t, 0, 0)) == Install(st, k, c.value.(generation := st.gens[k]))
  {
    assert (0 as bv32) as bv8 == 0;
  }

  /** `n` such pairs raise the generation by `n`. */
  lemma {:induction false} Churn(st: State, procId: nat, src: nat, t: nat, n: nat) returns (states: seq<State>, calls: seq<(nat, Call)>)
    requires CanChurn(st, procId, src, t) && st.gens[Index(procId, t)] + n <= MAX_GEN && src != t
    ensures Run(states, calls) && states[0] == st && |calls| == 2 * n
    ensures Last(states) == AtGeneration(st, Index(procId, t), st.gens[Index(procId, t)] + n) && WellFormed(Last(states))
  {
    var k := Index(procId, t);
    if n == 0 {
      states, calls := [st], [];
      assert st.gens[k := st.gens[k]] == st.gens;
    } else {
      states, calls := Churn(st, procId, src, t, n - 1);
      var now := Last(states);
      assert CanChurn(now, procId, src, t);
      PairBumps(now, procId, src, t);
      states, calls := ExtendTwice(states, calls, procId, DoMint(src, t, 0, 0), DoDelete(t));
      assert now.gens[k := st.gens[k] + n] == st.gens[k := st.gens[k] + n];
    }
  }

  // ---- What the missing refusal allows ----

  /** Two caps of the caller whose kinds differ, the first with a pooled object, and two empty slots. */
  ghost predicate CanAdopt(st: State, procId: nat, src: nat, other: nat, t: nat, c: nat) {
    && CanChurn(st, procId, src, t) && InRange(procId, other) && InRange(procId, c) && t != c && src != c
    && st.slots[Index(procId, c)] == EMPTY_CAP
    && var a, b := st.slots[Index(procId, src)], st.slots[Index(procId, other)];
    && b.kind != Empty && a.kind != b.kind && a.kind != Socket
  }

  /** The child in `c` hangs by a live link below a cap in `t` that it could not derive from. */
  ghost predicate Adopted(st: State, procId: nat, t: nat, c: nat) {
    && WellFormed(st) && InRange(procId, t) && InRange(procId, c)
    && IsChild(st, Index(procId, c), Index(procId, t))
    && !Derived(st.slots[Index(procId, t)], st.slots[Index(procId, c)])
    && InCascade(st, Index(procId, t), Index(procId, c))
  }

  /** The four calls at a saturated slot: fill it, derive from it, empty it, fill it again. */
  function AdoptionCalls(src: nat, other: nat, t: nat, c: nat): seq<Call> {
    [DoMint(src, t, 0, 0), DoMint(t, c, 0, 0), DoDelete(t), DoCopy(other, t)]
  }

  lemma FillAndDerive(st: State, procId: nat, src: nat, t: nat, c: nat)
    requires CanChurn(st, procId, src, t) && InRange(procId, c) && t != c && src != c && st.slots[Index(procId, c)] == EMPTY_CAP
    ensures var st1 := Next(st, procId, DoMint(src, t, 0, 0));
      && WellFormed(st1)
      && var st2 := Next(st1, procId, DoMint(t, c, 0, 0));
      && WellFormed(st2) && st2.gens == st.gens
      && Occupied(st2, Index(procId, t))
      && st2.slots[Index(procId, c)].kind == st.slots[Index(procId, src)].kind
      && st2.slots[Index(procId, c)].parent == At(procId, t, st.gens[Index(procId, t)])
      && forall i: nat :: i < TOTAL_SLOTS && i != Index(procId, t) && i != Index(procId, c) ==> st2.slots[i] == st.slots[i]
  {
    MintsNothing(st, procId, src, t);
    var st1 := Next(st, procId, DoMint(src, t, 0, 0));
    NextWellFormed(st, procId, DoMint(src, t, 0, 0));
    NextWellFormed(st1, procId, DoMint(t, c, 0, 0));
    assert (0 as bv32) as bv8 == 0;
  }

  lemma EmptyAndRefill(st: State, procId: nat, other: nat, t: nat, c: nat)
    requires WellFormed(st) && InRange(procId, other) && InRange(procId, t) && InRange(procId, c) && t != c && other != t
    requires Occupied(st, Index(procId, other)) && Occupied(st, Index(procId, t)) && Occupied(st, Index(procId, c))
    requires st.gens[Index(procId, t)] == MAX_GEN && st.slots[Index(procId, c)].parent == At(procId, t, MAX_GEN)
    requires st.slots[Index(procId, other)].kind != st.slots[Index(procId, c)].kind && st.slots[Index(procId, c)].kind != Socket
    ensures var st1 := Next(st, procId, DoDelete(t));
      && WellFormed(st1) && Adopted(Next(st1, procId, DoCopy(other, t)), procId, t, c)
  {
    NextWellFormed(st, procId, DoDelete(t));
    var st1 := Next(st, procId, DoDelete(t));
    NextWellFormed(st1, procId, DoCopy(other, t));
    var st2 := Next(st1, procId, DoCopy(other, t));
    assert Descends(st2, Index(procId, t), Index(procId, t), 0);
    assert Descends(st2, Index(procId, c), Index(procId, t), 1);
  }

  /** From a run whose last state shows the saturated generation, four more calls adopt. */
  lemma Adopt(states: seq<State>, calls: seq<(nat, Call)>, procId: nat, src: nat, other: nat, t: nat, c: nat)
    returns (states': seq<State>, calls': seq<(nat, Call)>)
    requires Run(states, calls) && WellFormed(Last(states)) && CanAdopt(Last(states), procId, src, other, t, c)
    requires Last(states).gens[Index(procId, t)] == MAX_GEN
    ensures Run(states', calls') && states' != [] && states'[0] == states[0] && Adopted(Last(states'), procId, t, c)
    ensures |calls'| == |calls| + 4 && forall i :: 0 <= i < 4 ==> calls'[|calls| + i] == (procId, AdoptionCalls(src, other, t, c)[i])
  {
    var st := Last(states);
    FillAndDerive(st, procId, src, t, c);
    states', calls' := ExtendTwice(states, calls, procId, DoMint(src, t, 0, 0), DoMint(t, c, 0, 0));
    EmptyAndRefill(Last(states'), procId, other, t, c);
    states', calls' := ExtendTwice(states', calls', procId, DoDelete(t), DoCopy(other, t));
  }

  /** What the first hello tenant holds after boot, whatever the configuration: its network
      cap in slot 2, its endpoint cap in slot 3, and slots 5 and 6 empty at generation zero. */
  lemma HelloAtBoot(f: BootFlags)
    ensures GenerationsOk(BootState(f)) && CanAdopt(BootState(f), HELLO, 3, 2, 5, 6)
    ensures BootState(f).gens[Index(HELLO, 5)] == 0
    ensures CapAt(BootState(f), Index(HELLO, 2)) == RootCap(Net, 0, READ | WRITE)
  {
    BootIsSound(f);
    var st := BootState(f);
    assert st.slots[514] == BootCap(f, 514) && st.slots[515] == BootCap(f, 515);
    assert st.slots[517] == BootCap(f, 517) && st.slots[518] == BootCap(f, 518);
    assert Index(HELLO, 2) == 514 && Index(HELLO, 3) == 515 && Index(HELLO, 5) == 517 && Index(HELLO, 6) == 518;
    assert st.objs[(Endpoint, 2)] == 2;
  }

  /** A run from boot: the tenant mints and deletes in its slot 5 until the generation
      saturates, and then adopts its endpoint's child below its network cap. A later
      revocation of that network cap would sweep the endpoint cap. */
  lemma BootRunAdopts(f: BootFlags) returns (states: seq<State>, calls: seq<(nat, Call)>)
    ensures Run(states, calls) && states != [] && states[0] == BootState(f)
    ensures Adopted(Last(states), HELLO, 5, 6)
  {
    HelloAtBoot(f);
    var st := BootState(f);
    var churned, pairs := Churn(st, HELLO, 3, 5, MAX_GEN);
    assert CanAdopt(Last(churned), HELLO, 3, 2, 5, 6);
    states, calls := Adopt(churned, pairs, HELLO, 3, 2, 5, 6);
  }
}
