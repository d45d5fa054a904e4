/** Refcounts: every allocated object is counted exactly by the caps that name it. */
module CapRefcounts {
  import opened CapTypes
  import opened CapState
  import opened CapGenerations
  import opened CapRuns

  /** How many of the caps in `slots` name object `k`. */
  ghost function Count(slots: seq<Cap>, k: Key): (n: nat)
    ensures n <= |slots|
  {
    if slots == [] then 0
    else Count(slots[..|slots| - 1], k) + (if Names(slots[|slots| - 1], k) then 1 else 0)
  }

  ghost function One(c: Cap, k: Key): nat { if Names(c, k) then 1 else 0 }

  lemma {:induction false} CountUpdate(slots: seq<Cap>, i: nat, c: Cap, k: Key)
    requires i < |slots|
    ensures Count(slots[i := c], k) == Count(slots, k) - One(slots[i], k) + One(c, k)
  {
    var n := |slots| - 1;
    if i < n {
      CountUpdate(slots[..n], i, c, k);
      assert slots[i := c][..n] == slots[..n][i := c];
    } else {
      assert slots[i := c][..n] == slots[..n];
    }
  }

  lemma {:induction false} NamedIsCounted(slots: seq<Cap>, i: nat, k: Key)
    requires i < |slots| && Names(slots[i], k)
    ensures Count(slots, k) > 0
  {
    if i < |slots| - 1 { NamedIsCounted(slots[..|slots| - 1], i, k); }
  }

  lemma {:induction false} CountedIsNamed(slots: seq<Cap>, k: Key)
    requires Count(slots, k) > 0
    ensures exists i :: 0 <= i < |slots| && Names(slots[i], k)
  {
    var n := |slots| - 1;
    if !Names(slots[n], k) {
      CountedIsNamed(slots[..n], k);
      var i :| 0 <= i < n && Names(slots[..n][i], k);
      assert Names(slots[i], k);
    }
  }

  /** The object at `k`, if allocated, has as many references as there are caps. */
  ghost predicate KeyExact(st: State, k: Key) {
    && (k in st.objs ==> st.objs[k] == Count(st.slots, k))
    && (k !in st.objs ==> Count(st.slots, k) == 0)
  }

  ghost predicate RefExact(st: State) {
    && |st.slots| == TOTAL_SLOTS
    && forall k: Key :: KeyExact(st, k)
  }

  /** Every cap over a pooled kind names an allocated object. */
  lemma CapsNameAllocated(st: State, i: nat)
    requires RefExact(st) && i < TOTAL_SLOTS && Pooled(st.slots[i].kind)
    ensures (st.slots[i].kind, st.slots[i].poolIndex) in st.objs
  {
    var k := (st.slots[i].kind, st.slots[i].poolIndex);
    NamedIsCounted(st.slots, i, k);
    assert KeyExact(st, k);
  }

  /** Emptying an occupied slot and dropping its reference keeps the counts exact;
      the saturating subtraction never saturates. */
  lemma VacateKeepsExact(st: State, i: nat, g: nat)
    requires RefExact(st) && |st.gens| == TOTAL_SLOTS && i < TOTAL_SLOTS && Occupied(st, i)
    ensures RefExact(Vacate(st, i, g))
  {
    var c := st.slots[i];
    forall k: Key
      ensures KeyExact(Vacate(st, i, g), k)
    {
      assert KeyExact(st, k);
      CountUpdate(st.slots, i, EMPTY_CAP, k);
      if Names(c, k) { NamedIsCounted(st.slots, i, k); }
    }
  }

  /** Filling an empty slot with a cap over an allocated object keeps the counts
      exact; at most 4096 caps exist, so the saturating addition never saturates. */
  lemma InstallKeepsExact(st: State, i: nat, c: Cap)
    requires RefExact(st) && i < TOTAL_SLOTS && !Occupied(st, i)
    requires Pooled(c.kind) ==> (c.kind, c.poolIndex) in st.objs
    ensures RefExact(Install(st, i, c))
  {
    forall k: Key
      ensures KeyExact(Install(st, i, c), k)
    {
      assert KeyExact(st, k);
      CountUpdate(st.slots, i, c, k);
    }
  }

  lemma AllocKeepsExact(st: State, k: Key)
    requires RefExact(st) && k !in st.objs
    ensures RefExact(st.(objs := st.objs[k := 0]))
  {
    var st' := st.(objs := st.objs[k := 0]);
    forall k': Key
      ensures KeyExact(st', k')
    {
      assert KeyExact(st, k');
    }
  }

  lemma {:induction false} SweepKeepsExact(st: State, doomed: set<nat>, n: nat)
    requires WellFormed(st) && RefExact(st) && n <= TOTAL_SLOTS
    requires forall i :: i in doomed ==> i < TOTAL_SLOTS && Occupied(st, i)
    ensures RefExact(SweepBelow(st, doomed, n))
  {
    if n > 0 {
      SweepKeepsExact(st, doomed, n - 1);
      if n - 1 in doomed {
        SweepSlots(st, doomed, n - 1, n - 1);
        var before := SweepBelow(st, doomed, n - 1);
        VacateKeepsExact(before, n - 1, Bump(before.gens[n - 1]));
      }
    }
  }

  lemma RevokeKeepsExact(st: State, t: nat)
    requires WellFormed(st) && RefExact(st) && t < TOTAL_SLOTS && Occupied(st, t)
    ensures RefExact(Revoked(st, t))
  {
    forall i | i in Cascade(st, t)
      ensures i < TOTAL_SLOTS && Occupied(st, i)
    {
      CascadeOccupied(st, t, i);
    }
    SweepKeepsExact(st, Cascade(st, t), TOTAL_SLOTS);
  }

  /** Every system call keeps every refcount exact, saturated generations or not. */
  lemma CallKeepsExact(st: State, procId: nat, call: Call)
    requires WellFormed(st) && RefExact(st)
    ensures RefExact(Next(st, procId, call))
  {
    if Outcome(st, procId, call).Ok? {
      match call
      case DoMint(p, t, r, b) =>
        var pi, ti := Index(procId, p), Index(procId, t);
        if Pooled(st.slots[pi].kind) { CapsNameAllocated(st, pi); }
        InstallKeepsExact(st, ti, Derive(st.slots[pi], At(procId, p, st.gens[pi]), r as bv8, b).value.(generation := st.gens[ti]));
      case DoCopy(s, t) =>
        var si, ti := Index(procId, s), Index(procId, t);
        if Pooled(st.slots[si].kind) { CapsNameAllocated(st, si); }
        InstallKeepsExact(st, ti, st.slots[si].(generation := st.gens[ti]));
      case DoDelete(s) => VacateKeepsExact(st, Index(procId, s), Bump(st.gens[Index(procId, s)]));
      case DoRevoke(s) => RevokeKeepsExact(st, Index(procId, s));
      case DoSocketCreate(s, _) =>
        var n, t, x := Index(procId, SLOT_NET), Index(procId, s), FirstFree(st.objs, Socket, 0).value;
        AllocKeepsExact(st, (Socket, x));
        InstallKeepsExact(st.(objs := st.objs[(Socket, x) := 0]), t,
                          Cap(0, At(procId, SLOT_NET, st.gens[n]), st.gens[t], x, Socket, READ | WRITE));
      case DoSocketClose(s) =>
        var i := Index(procId, s);
        VacateKeepsExact(st, i, if st.gens[i] < MAX_GEN then st.gens[i] + 1 else 0);
    }
  }

  /** Over any run, from exact counts to exact counts. */
  lemma {:induction false} RunKeepsExact(states: seq<State>, calls: seq<(nat, Call)>, i: nat)
    requires Run(states, calls) && i < |states| && RefExact(states[0])
    ensures RefExact(states[i])
  {
    if i > 0 {
      RunKeepsExact(states, calls, i - 1);
      RunWellFormed(states, calls, i - 1);
      assert Follows(states[i - 1], calls[i - 1].0, calls[i - 1].1, states[i]);
      CallKeepsExact(states[i - 1], calls[i - 1].0, calls[i - 1].1);
    }
  }

  // ---- What a revocation does to the objects ----

  /** The members of `doomed` below `n` whose caps name `k`. */
  ghost function Swept(st: State, doomed: set<nat>, n: nat, k: Key): set<nat>
    requires n <= |st.slots|
  {
    set i | i in doomed && i < n && Names(st.slots[i], k)
  }

  /** An object loses one reference per swept cap naming it, and is freed when none is left. */
  ghost predicate LostReferences(before: Objects, after: Objects, k: Key, lost: nat) {
    if k !in before || (lost > 0 && before[k] <= lost) then k !in after
    else k in after && after[k] == before[k] - lost
  }

  lemma OneLost(before: Objects, now: Objects, cap: Cap, k: Key, lost: nat)
    requires LostReferences(before, now, k, lost)
    ensures LostReferences(before, DecRefcount(now, cap.kind, cap.poolIndex), k, if Names(cap, k) then lost + 1 else lost)
  {}

  lemma {:induction false} SweepObjects(st: State, doomed: set<nat>, n: nat, k: Key)
    requires WellFormed(st) && n <= TOTAL_SLOTS
    ensures LostReferences(st.objs, SweepBelow(st, doomed, n).objs, k, |Swept(st, doomed, n, k)|)
  {
    if n == 0 {
      assert Swept(st, doomed, n, k) == {};
    } else {
      SweepObjects(st, doomed, n - 1, k);
      SweepSlots(st, doomed, n - 1, n - 1);
      var i := n - 1;
      OneLost(st.objs, SweepBelow(st, doomed, i).objs, st.slots[i], k, |Swept(st, doomed, i, k)|);
      if i in doomed && Names(st.slots[i], k) {
        assert Swept(st, doomed, n, k) == Swept(st, doomed, i, k) + {i};
      } else {
        assert Swept(st, doomed, n, k) == Swept(st, doomed, i, k);
      }
    }
  }

  /** The caps of the cascade that name `k`. */
  ghost function CascadeNaming(st: State, t: nat, k: Key): set<nat>
    requires WellFormed(st) && t < TOTAL_SLOTS
  {
    set i | i in Cascade(st, t) && Names(st.slots[i], k)
  }

  /** A revocation lowers every object's refcount by exactly the swept caps that name it,
      and frees exactly those that lose their last. */
  lemma RevokeCounts(st: State, t: nat, k: Key)
    requires WellFormed(st) && t < TOTAL_SLOTS
    ensures LostReferences(st.objs, Revoked(st, t).objs, k, |CascadeNaming(st, t, k)|)
  {
    SweepObjects(st, Cascade(st, t), TOTAL_SLOTS, k);
    assert Swept(st, Cascade(st, t), TOTAL_SLOTS, k) == CascadeNaming(st, t, k);
  }

  /** A revocation that starts off a network interface touches one object, whose
      refcount falls by exactly the number of caps swept. */
  lemma RevokeTouchesOneObject(st: State, t: nat, k: Key)
    requires GenerationsOk(st) && t < TOTAL_SLOTS && Occupied(st, t) && st.slots[t].kind != Net
    ensures
      var target := (st.slots[t].kind, st.slots[t].poolIndex);
      LostReferences(st.objs, Revoked(st, t).objs, k, if Pooled(st.slots[t].kind) && k == target then |Cascade(st, t)| else 0)
  {
    RevokeCounts(st, t, k);
    forall i | i in Cascade(st, t)
      ensures st.slots[i].kind == st.slots[t].kind && st.slots[i].poolIndex == st.slots[t].poolIndex
    {
      var n: nat :| Descends(st, i, t, n);
      ChainKeepsObject(st, i, t, n);
    }
    if Pooled(st.slots[t].kind) && k == (st.slots[t].kind, st.slots[t].poolIndex) {
      assert CascadeNaming(st, t, k) == Cascade(st, t);
    } else {
      assert CascadeNaming(st, t, k) == {};
    }
  }

  /** The cascade's caps of one kind. */
  ghost function CascadeOfKind(st: State, t: nat, kind: Kind): set<nat>
    requires WellFormed(st) && t < TOTAL_SLOTS
  {
    set i | i in Cascade(st, t) && st.slots[i].kind == kind
  }

  lemma NetCascade(st: State, t: nat)
    requires GenerationsOk(st) && t < TOTAL_SLOTS && st.slots[t].kind == Net
    ensures forall i :: i in Cascade(st, t) ==>
      st.slots[i].kind == Socket || (st.slots[i].kind == Net && st.slots[i].poolIndex == st.slots[t].poolIndex)
  {
    forall i | i in Cascade(st, t)
      ensures st.slots[i].kind == Socket || (st.slots[i].kind == Net && st.slots[i].poolIndex == st.slots[t].poolIndex)
    {
      var n: nat :| Descends(st, i, t, n);
      ChainKeepsObject(st, i, t, n);
    }
  }

  /** Revoking a network interface sweeps caps of that interface and sockets. The
      interface loses exactly its caps, each socket exactly the caps that name it, and
      no other object any. */
  lemma RevokeNetCounts(st: State, t: nat, k: Key)
    requires GenerationsOk(st) && t < TOTAL_SLOTS && st.slots[t].kind == Net
    ensures
      && Cascade(st, t) == CascadeOfKind(st, t, Net) + CascadeOfKind(st, t, Socket)
      && |Cascade(st, t)| == |CascadeOfKind(st, t, Net)| + |CascadeOfKind(st, t, Socket)|
      && LostReferences(st.objs, Revoked(st, t).objs, k,
           if k == (Net, st.slots[t].poolIndex) then |CascadeOfKind(st, t, Net)|
           else if k.0 == Socket then |CascadeNaming(st, t, k)| else 0)
  {
    RevokeCounts(st, t, k);
    NetCascade(st, t);
    assert Cascade(st, t) == CascadeOfKind(st, t, Net) + CascadeOfKind(st, t, Socket);
    assert CascadeOfKind(st, t, Net) !! CascadeOfKind(st, t, Socket);
    if k == (Net, st.slots[t].poolIndex) {
      assert CascadeNaming(st, t, k) == CascadeOfKind(st, t, Net);
    } else if k.0 != Socket {
      assert CascadeNaming(st, t, k) == {};
    }
  }

  /** How many references object `k` loses when the cap in `t` is revoked. */
  ghost function LostTo(st: State, t: nat, k: Key): nat
    requires WellFormed(st) && t < TOTAL_SLOTS
  {
    var c := st.slots[t];
    if c.kind == Net && k.0 == Socket then |CascadeNaming(st, t, k)|
    else if k != (c.kind, c.poolIndex) || !Pooled(c.kind) then 0
    else if c.kind == Net then |CascadeOfKind(st, t, Net)|
    else |Cascade(st, t)|
  }

  /** Revoking any cap takes from its own object the swept caps of its kind, from sockets
      below a network interface the swept caps that name them, and from no other object any. */
  lemma RevokeLoses(st: State, t: nat, k: Key)
    requires GenerationsOk(st) && t < TOTAL_SLOTS && Occupied(st, t)
    ensures LostReferences(st.objs, Revoked(st, t).objs, k, LostTo(st, t, k))
  {
    if st.slots[t].kind == Net { RevokeNetCounts(st, t, k); } else { RevokeTouchesOneObject(st, t, k); }
  }
}
