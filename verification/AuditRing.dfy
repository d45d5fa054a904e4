/** The lossy ring of records and the set of sleeping readers, in place: reads agree with
    the unbounded log, and there is always room for one more sleeper. */
module AuditRing {
  import opened Wrappers
  import opened Words
  import opened KernelAbi
  import opened AuditLog
  import opened Sequences

  /** The ring holds the newest records of the log, each at its number's slot. */
  ghost predicate HoldsNewest(ring: seq<Event>, log: seq<Event>) {
    |ring| == RING_CAPACITY && forall i :: Oldest(|log|) <= i < |log| ==> ring[i % RING_CAPACITY] == log[i]
  }

  lemma SlotsDiffer(i: nat, n: nat)
    requires Oldest(n + 1) <= i < n
    ensures i % RING_CAPACITY != n % RING_CAPACITY
  {}

  lemma HoldsAfter(ring: seq<Event>, log: seq<Event>, e: Event)
    requires HoldsNewest(ring, log)
    ensures HoldsNewest(ring[|log| % RING_CAPACITY := e], log + [e])
  {
    var ring' := ring[|log| % RING_CAPACITY := e];
    forall i | Oldest(|log| + 1) <= i < |log| + 1 ensures ring'[i % RING_CAPACITY] == (log + [e])[i] {
      if i < |log| { SlotsDiffer(i, |log|); }
    }
  }

  // ---- Waiters ----

  function Ids(slots: seq<Option<nat>>): (r: set<nat>)
    ensures forall p :: p in r <==> Some(p) in slots
  {
    set s | s in slots && s.Some? :: s.value
  }

  /** Process ids, none twice. */
  ghost predicate DistinctIds(slots: seq<Option<nat>>) {
    && (forall i :: 0 <= i < |slots| && slots[i].Some? ==> slots[i].value < MAX_PROCS)
    && (forall i, j :: 0 <= i < j < |slots| && slots[i].Some? ==> slots[i] != slots[j])
  }

  lemma {:induction false} FullCount(slots: seq<Option<nat>>, bound: set<nat>)
    requires DistinctIds(slots) && (forall i :: 0 <= i < |slots| ==> slots[i].Some? && slots[i].value in bound)
    ensures |slots| <= |bound|
  {
    if slots != [] {
      forall i | 0 <= i < |slots[1..]| ensures slots[1..][i].Some? && slots[1..][i].value in bound - {slots[0].value} {
        assert slots[1..][i] == slots[i + 1];
      }
      FullCount(slots[1..], bound - {slots[0].value});
    }
  }

  lemma FullHoldsAll(slots: seq<Option<nat>>, p: nat, n: nat)
    requires DistinctIds(slots) && |slots| == n && p < n && (forall i :: 0 <= i < n ==> slots[i].Some? && slots[i].value < n)
    ensures Some(p) in slots
  {
    if Some(p) !in slots {
      var bound := Upto(n) - {p};
      assert |bound| == n - 1;
      forall i | 0 <= i < |slots| ensures slots[i].Some? && slots[i].value in bound {
        assert slots[i] in slots;
      }
      FullCount(slots, bound);
    }
  }

  /** A set sized to the processes has a free slot for any that is not in it. */
  lemma RoomForOne(slots: seq<Option<nat>>, p: nat)
    requires DistinctIds(slots) && |slots| == MAX_PROCS && p < MAX_PROCS && Some(p) !in slots
    ensures None in slots
  {
    if None !in slots {
      forall i | 0 <= i < |slots| ensures slots[i].Some? { assert slots[i] in slots; }
      FullHoldsAll(slots, p, MAX_PROCS);
    }
  }

  class AuditStream {
    const ring: array<Event>
    const waiters: array<Option<nat>>
    var nextSeq: nat

    ghost var log: seq<Event>

    ghost predicate Valid()
      reads this, ring, waiters
    {
      && Numbered(log) && nextSeq == |log| && HoldsNewest(ring[..], log)
      && waiters.Length == MAX_PROCS && DistinctIds(waiters[..])
    }

    /** The processes asleep on the stream. */
    ghost function Sleeping(): set<nat>
      reads waiters
    {
      Ids(waiters[..])
    }

    constructor ()
      ensures Valid() && log == [] && Sleeping() == {} && fresh(ring) && fresh(waiters)
    {
      ring := new Event[RING_CAPACITY](_ => Event(0, 0, 0, 0));
      waiters := new Option<nat>[MAX_PROCS](_ => None);
      nextSeq := 0;
      log := [];
      new;
      assert Oldest(0) == 0;
    }

    /** `claim`: the next slot and number. */
    method Claim() returns (slot: nat, seqNo: nat)
      requires nextSeq + 1 < U64_LIMIT
      modifies this`nextSeq
      ensures nextSeq == old(nextSeq) + 1 && seqNo == old(nextSeq) && slot == old(nextSeq) % RING_CAPACITY
    {
      seqNo := nextSeq;
      nextSeq := nextSeq + 1;
      slot := seqNo % RING_CAPACITY;
    }

    /** `emit`: the record joins the log and everyone wakes. The count stays below 2^64. */
    method Emit(kind: nat, a: nat, b: nat)
      requires Valid() && nextSeq + 1 < U64_LIMIT
      modifies this, ring, waiters
      ensures Valid() && log == old(log) + [Event(|old(log)|, kind, a, b)] && Sleeping() == {}
    {
      ghost var was := ring[..];
      var slot, seqNo := Claim();
      var e := Event(seqNo, kind, a, b);
      HoldsAfter(was, log, e);
      ring[slot] := e;
      assert ring[..] == was[slot := e];
      log := log + [e];
      WakeAll();
    }

    method WakeAll()
      requires Valid()
      modifies waiters
      ensures Valid() && Sleeping() == {}
    {
      var i := 0;
      while i < waiters.Length
        invariant i <= waiters.Length && forall k :: 0 <= k < i ==> waiters[k] == None
      {
        waiters[i] := None;
        i := i + 1;
      }
    }

    /** `read_at`: exactly what the log says. */
    method ReadAt(cursor: nat) returns (r: ReadResult)
      requires Valid()
      ensures r == ReadLog(log, cursor)
    {
      match Plan(cursor, nextSeq)
      case UpToDate => return CaughtUp;
      case Read(slot, _) => return Record(ring[slot]);
      case Lagged(_, resume) => return Gap(ring[resume % RING_CAPACITY]);
    }

    /** `register_waiter`: never refuses a process. */
    method RegisterWaiter(p: nat) returns (ok: bool)
      requires Valid() && p < MAX_PROCS
      modifies waiters
      ensures Valid() && ok && Sleeping() == old(Sleeping()) + {p}
    {
      var i := 0;
      while i < MAX_PROCS
        invariant i <= MAX_PROCS && forall k :: 0 <= k < i ==> waiters[k] != Some(p)
      {
        if waiters[i] == Some(p) {
          assert Some(p) in waiters[..];
          return true;
        }
        i := i + 1;
      }
      RoomForOne(waiters[..], p);
      i := 0;
      while waiters[i].Some?
        invariant i < MAX_PROCS && None in waiters[i..]
        decreases MAX_PROCS - i
      {
        assert None in waiters[i + 1..];
        i := i + 1;
      }
      ghost var was := waiters[..];
      waiters[i] := Some(p);
      AddedId(was, i, p);
      assert waiters[..] == was[i := Some(p)];
      return true;
    }

    /** `event_read`: a negative code without the capability or when the record cannot be
        written, and no answer at all for a process that sleeps. */
    method EventRead(p: nat, cursor: nat, access: Access) returns (code: int, r: ReadResult, asleep: bool)
      requires Valid() && p < MAX_PROCS
      modifies waiters
      ensures Valid() && r == ReadLog(log, cursor) && log == old(log)
      ensures asleep <==> access.Allowed? && r == CaughtUp
      ensures Sleeping() == if asleep then old(Sleeping()) + {p} else old(Sleeping())
      ensures !asleep ==> (code ==
        if access.Denied? then -1 else if !access.writes then -3 else if r.Gap? then 2 else 0)
    {
      r := ReadAt(cursor);
      asleep := false;
      if access.Denied? { return Code(E_PERM), r, false; }
      if r == CaughtUp {
        asleep := RegisterWaiter(p);
        return 1, r, asleep;
      }
      return if !access.writes then Code(E_NOMEM) else if r.Gap? then 2 else 0, r, false;
    }
  }

  lemma AddedId(slots: seq<Option<nat>>, i: nat, p: nat)
    requires i < |slots| && slots[i] == None
    ensures Ids(slots[i := Some(p)]) == Ids(slots) + {p}
  {
    var after := slots[i := Some(p)];
    assert after[i] == Some(p);
    forall q | q in Ids(slots) ensures q in Ids(after) {
      var k :| 0 <= k < |slots| && slots[k] == Some(q);
      assert after[k] == Some(q);
    }
  }

  // ---- The guard's loop ----

  class GuardLoop {
    var cursor: nat
    ghost var g: Guard

    /** Process `p` runs this loop on the stream: its cursor and its account are true, and it
        waits on the stream exactly while it sleeps. */
    ghost predicate Follows(stream: AuditStream, p: nat)
      reads this, stream, stream.ring, stream.waiters
    {
      && stream.Valid() && p < MAX_PROCS
      && cursor == g.cursor && Accounted(stream.log, g)
      && (g.asleep <==> p in stream.Sleeping())
    }

    constructor (stream: AuditStream, p: nat)
      requires stream.Valid() && p < MAX_PROCS && p !in stream.Sleeping()
      ensures Follows(stream, p) && g == FreshGuard()
    {
      cursor := 0;
      g := FreshGuard();
    }

    /** One turn of `_start` on the bytes a read wrote. */
    method OneTurn(stream: AuditStream, p: nat, access: Access) returns (gap: nat)
      requires Follows(stream, p) && !g.asleep && !g.left
      requires forall i :: 0 <= i < |stream.log| ==> Fits(stream.log[i])
      modifies this, stream.waiters
      ensures Follows(stream, p) && stream.log == old(stream.log)
      ensures g == Turn(old(g), ReadLog(stream.log, old(g.cursor)), access)
      ensures gap == g.lost - old(g.lost)
    {
      gap := 0;
      var code, r, asleep := stream.EventRead(p, cursor, access);
      TurnKeepsAccount(stream.log, g, access);
      if !asleep && code >= 0 {
        EventRoundTrip(r.event);
        var e := DecodeEvent(EncodeEvent(r.event));
        if code == 2 { gap := SaturatingSub(e.seqNo, cursor); }
        cursor := e.seqNo + 1;
      }
      g := Turn(g, r, access);
    }

    /** A writer's record wakes the guard: it is ready for its next turn, with the same cursor. */
    method Wake(stream: AuditStream, p: nat, kind: nat, a: nat, b: nat)
      requires Follows(stream, p) && stream.nextSeq + 1 < U64_LIMIT
      modifies this, stream, stream.ring, stream.waiters
      ensures Follows(stream, p) && stream.log == old(stream.log) + [Event(|old(stream.log)|, kind, a, b)]
      ensures g == old(g).(asleep := false)
    {
      stream.Emit(kind, a, b);
      g := g.(asleep := false);
    }
  }
}
