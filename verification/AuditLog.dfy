/** The audit stream as an unbounded log, and guards that follow it through a window of
    its newest records. */
module AuditLog {
  import opened Words
  import opened Bytes

  const RING_CAPACITY: nat := 128

  datatype Event = Event(seqNo: nat, kind: nat, a: nat, b: nat)

  datatype ReadPlan = UpToDate | Read(slot: nat, at: nat) | Lagged(lost: nat, resume: nat)

  /** The oldest sequence number still in the ring. */
  function Oldest(next: nat): nat {
    if next < RING_CAPACITY then 0 else next - RING_CAPACITY
  }

  /** `read_plan`. */
  function Plan(reader: nat, next: nat): ReadPlan {
    if reader >= next then UpToDate
    else if reader < Oldest(next) then Lagged(Oldest(next) - reader, Oldest(next))
    else Read(reader % RING_CAPACITY, reader)
  }

  /** What a read at `cursor` answers, in terms of the log alone. */
  datatype ReadResult = CaughtUp | Record(event: Event) | Gap(event: Event)

  function ReadLog(log: seq<Event>, cursor: nat): ReadResult {
    if cursor >= |log| then CaughtUp
    else if cursor < Oldest(|log|) then Gap(log[Oldest(|log|)])
    else Record(log[cursor])
  }

  /** Records carry their place in the log. */
  ghost predicate Numbered(log: seq<Event>) {
    forall i :: 0 <= i < |log| ==> log[i].seqNo == i
  }

  // ---- Guards ----

  /** A guard: its cursor, what it printed, how many records it reported lost, whether it
      sleeps in `event_read`, and whether it has left its loop. */
  datatype Guard = Guard(cursor: nat, printed: seq<Event>, lost: nat, asleep: bool, left: bool)

  function FreshGuard(): Guard { Guard(0, [], 0, false, false) }

  function SaturatingSub(a: nat, b: nat): nat { if a > b then a - b else 0 }

  /** What the guard may do: nothing without its capability, and otherwise read, into memory
      that takes the record or not. */
  datatype Access = Denied | Allowed(writes: bool)

  /** One turn of the guard's loop after a read: print, count the gap, advance; a read error
      ends the loop. */
  function Turn(g: Guard, r: ReadResult, access: Access): Guard {
    if access.Denied? then g.(left := true) else
    match r
    case CaughtUp => g.(asleep := true)
    case Record(e) =>
      if !access.writes then g.(left := true) else g.(printed := g.printed + [e], cursor := e.seqNo + 1)
    case Gap(e) =>
      if !access.writes then g.(left := true)
      else g.(printed := g.printed + [e], cursor := e.seqNo + 1,
              lost := g.lost + SaturatingSub(e.seqNo, g.cursor))
  }

  datatype Sys = Sys(log: seq<Event>, guards: seq<Guard>)

  /** A writer records an event and wakes every sleeping guard; a guard that is awake reads. */
  datatype Step = Emit(kind: nat, a: nat, b: nat) | GuardReads(g: nat, access: Access)

  predicate Enabled(st: Sys, s: Step) {
    s.GuardReads? ==> s.g < |st.guards| && !st.guards[s.g].asleep && !st.guards[s.g].left
  }

  function Awake(guards: seq<Guard>): (r: seq<Guard>)
    ensures |r| == |guards| && forall i :: 0 <= i < |r| ==> r[i] == guards[i].(asleep := false)
  {
    seq(|guards|, i requires 0 <= i < |guards| => guards[i].(asleep := false))
  }

  function Next(st: Sys, s: Step): Sys
    requires Enabled(st, s)
  {
    match s
    case Emit(kind, a, b) => Sys(st.log + [Event(|st.log|, kind, a, b)], Awake(st.guards))
    case GuardReads(g, access) =>
      st.(guards := st.guards[g := Turn(st.guards[g], ReadLog(st.log, st.guards[g].cursor), access)])
  }

  /** A guard's account of the log: it printed true records in strictly increasing order,
      printed and lost add up to its cursor, and it sleeps only when nothing is left to read. */
  ghost predicate Accounted(log: seq<Event>, g: Guard) {
    && g.cursor <= |log| && |g.printed| + g.lost == g.cursor
    && (forall i :: 0 <= i < |g.printed| ==> g.printed[i].seqNo < g.cursor && g.printed[i] == log[g.printed[i].seqNo])
    && (forall i, j :: 0 <= i < j < |g.printed| ==> g.printed[i].seqNo < g.printed[j].seqNo)
    && (g.asleep ==> g.cursor == |log|)
  }

  ghost predicate Sound(st: Sys) {
    && Numbered(st.log)
    && forall g :: 0 <= g < |st.guards| ==> Accounted(st.log, st.guards[g])
  }

  /** One read keeps the account, and fails to make progress only when caught up or refused. */
  lemma TurnKeepsAccount(log: seq<Event>, g: Guard, access: Access)
    requires Numbered(log) && Accounted(log, g)
    ensures Accounted(log, Turn(g, ReadLog(log, g.cursor), access))
    ensures var g' := Turn(g, ReadLog(log, g.cursor), access);
      if access.Denied? then g' == g.(left := true)
      else if g.cursor == |log| then g' == g.(asleep := true)
      else if access.writes then g'.cursor > g.cursor && g'.printed == g.printed + [log[g'.cursor - 1]]
           && g'.lost - g.lost == (if g.cursor + 128 < |log| then |log| - 128 - g.cursor else 0)
      else g' == g.(left := true)
  {}

  /** A writer's record joins the log under the next number, and every guard is as it was but awake. */
  lemma EmitRecords(st: Sys, kind: nat, a: nat, b: nat)
    ensures var st' := Next(st, Emit(kind, a, b));
      && |st'.log| == |st.log| + 1 && st'.log[..|st.log|] == st.log
      && st'.log[|st.log|].seqNo == |st.log| && st'.log[|st.log|].kind == kind && st'.log[|st.log|].a == a && st'.log[|st.log|].b == b
      && |st'.guards| == |st.guards| && forall g :: 0 <= g < |st.guards| ==> st'.guards[g] == st.guards[g].(asleep := false)
  {}

  lemma StepKeepsSound(st: Sys, s: Step)
    requires Sound(st) && Enabled(st, s)
    ensures Sound(Next(st, s))
  {
    match s
    case Emit(_, _, _) =>
      forall g | 0 <= g < |st.guards| ensures Accounted(Next(st, s).log, Awake(st.guards)[g]) {
        assert Accounted(st.log, st.guards[g]);
      }
    case GuardReads(g, access) =>
      TurnKeepsAccount(st.log, st.guards[g], access);
  }

  ghost predicate Run(states: seq<Sys>, steps: seq<Step>) {
    && |states| == |steps| + 1
    && states[0].log == [] && (forall g :: 0 <= g < |states[0].guards| ==> states[0].guards[g] == FreshGuard())
    && forall i :: 0 <= i < |steps| ==> Enabled(states[i], steps[i]) && states[i + 1] == Next(states[i], steps[i])
  }

  /** Under any interleaving of writers and guards: true records in order, nothing lost
      silently, and no guard asleep while a record waits for it. */
  lemma {:induction false} RunKeepsSound(states: seq<Sys>, steps: seq<Step>, i: nat)
    requires Run(states, steps) && i < |states|
    ensures Sound(states[i])
  {
    if i > 0 {
      RunKeepsSound(states, steps, i - 1);
      StepKeepsSound(states[i - 1], steps[i - 1]);
    }
  }

  /** A guard that reported no loss printed exactly the log up to its cursor. */
  lemma {:induction false} PrintedWithoutLoss(log: seq<Event>, g: Guard, n: nat)
    requires Numbered(log) && Accounted(log, g) && g.lost == 0 && n <= |g.printed|
    ensures g.printed[..n] == log[..n]
  {
    if n > 0 {
      PrintedWithoutLoss(log, g, n - 1);
      PrintedAt(log, g, n - 1);
      assert g.printed[..n] == g.printed[..n - 1] + [g.printed[n - 1]];
      assert log[..n] == log[..n - 1] + [log[n - 1]];
    }
  }

  lemma PrintedAt(log: seq<Event>, g: Guard, k: nat)
    requires Numbered(log) && Accounted(log, g) && g.lost == 0 && k < |g.printed|
    ensures g.printed[k].seqNo == k
  {
    AtLeast(g.printed, k);
    AtMost(g.printed, k, g.cursor);
  }

  ghost predicate Increasing(s: seq<Event>) { forall i, j :: 0 <= i < j < |s| ==> s[i].seqNo < s[j].seqNo }

  lemma {:induction false} AtLeast(s: seq<Event>, k: nat)
    requires Increasing(s) && k < |s|
    ensures s[k].seqNo >= k
  {
    if k > 0 { AtLeast(s, k - 1); }
  }

  lemma {:induction false} AtMost(s: seq<Event>, k: nat, bound: nat)
    requires Increasing(s) && k < |s| && forall i :: 0 <= i < |s| ==> s[i].seqNo < bound
    ensures s[k].seqNo + |s| - k <= bound
    decreases |s| - k
  {
    if k + 1 < |s| { AtMost(s, k + 1, bound); }
  }

  // ---- The record in the guard's memory ----

  ghost predicate Fits(e: Event) {
    e.seqNo < U64_LIMIT && e.kind < 0x1_0000 && e.a < 0x1_0000 && e.b < 0x1_0000_0000
  }

  /** The 16 little-endian bytes of a record. */
  function EncodeEvent(e: Event): (r: seq<byte>)
    ensures |r| == 16
  {
    LeBytes(e.seqNo, 8) + LeBytes(e.kind, 2) + LeBytes(e.a, 2) + LeBytes(e.b, 4)
  }

  function DecodeEvent(r: seq<byte>): Event
    requires |r| == 16
  {
    Event(LeValue(r[0..8]), LeValue(r[8..10]), LeValue(r[10..12]), LeValue(r[12..16]))
  }

  /** The number comes first, in eight bytes, then the kind and the two arguments. */
  lemma EventLayout(e: Event)
    requires Fits(e)
    ensures var r := EncodeEvent(e);
      LeValue(r[..8]) == e.seqNo && LeValue(r[8..10]) == e.kind && LeValue(r[10..12]) == e.a && LeValue(r[12..]) == e.b
  {
    EventRoundTrip(e);
    assert EncodeEvent(e)[0..8] == EncodeEvent(e)[..8] && EncodeEvent(e)[12..16] == EncodeEvent(e)[12..];
  }

  lemma EventRoundTrip(e: Event)
    requires Fits(e)
    ensures DecodeEvent(EncodeEvent(e)) == e
  {
    var r := EncodeEvent(e);
    assert r[0..8] == LeBytes(e.seqNo, 8) && r[8..10] == LeBytes(e.kind, 2);
    assert r[10..12] == LeBytes(e.a, 2);
    assert r[12..16] == r[12..] == LeBytes(e.b, 4);
    assert Pow256(8) == U64_LIMIT && Pow256(4) == 0x1_0000_0000 && Pow256(2) == 0x1_0000;
    LeRoundTrip(e.seqNo, 8);
    LeRoundTrip(e.kind, 2);
    LeRoundTrip(e.a, 2);
    LeRoundTrip(e.b, 4);
  }
}
