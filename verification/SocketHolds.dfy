/** The reference protocol of socket slots in full-duplex mode: `fd_used`, `fd_free_pending` and the
    hand-out of a slot's netconn for deletion. Each function is one section between
    SYS_ARCH_PROTECT and SYS_ARCH_UNPROTECT, so a run is a sequence of their effects. */
module SocketHolds {

  import opened Options

  type Thread = nat
  type Netconn = nat

  /** `struct lwip_sock`. `used` and `waiting` are the 8-bit counters `fd_used` and `select_waiting`.
      `holders` and `waiters` record on whose behalf they were raised; the code never reads them. */
  datatype Slot = Slot(
    conn: Option<Netconn>, used: nat, pending: bool, waiting: nat,
    holders: multiset<Thread>, waiters: multiset<Thread>)

  const WRAP := 256

  const VACANT := Slot(None, 0, false, 0, multiset{}, multiset{})

  // ---------------------------------------------------------------- the protected sections

  /** `sock_inc_used` and `sock_inc_used_locked`. */
  function IncUsed(sl: Slot, t: Thread): (r: (Slot, bool)) {
    if sl.pending then (sl, false)
    else (sl.(used := (sl.used + 1) % WRAP, holders := sl.holders + multiset{t}), true)
  }

  /** `free_socket_locked`: the netconn is given out when the count reaches zero. */
  function FreeLocked(sl: Slot): (r: (Slot, Option<Netconn>)) {
    var used := (sl.used + WRAP - 1) % WRAP;
    if used > 0 then (sl.(used := used, pending := true), None)
    else (sl.(used := 0, conn := None), sl.conn)
  }

  /** `free_socket` by a thread that holds the slot; its hold ends. */
  function FreeSocket(sl: Slot, t: Thread): (r: (Slot, Option<Netconn>)) {
    FreeLocked(sl.(holders := sl.holders - multiset{t}))
  }

  /** `done_socket` by a thread that holds the slot. */
  function DoneSocket(sl: Slot, t: Thread): (r: (Slot, Option<Netconn>)) {
    var used := (sl.used + WRAP - 1) % WRAP;
    var sl' := sl.(used := used, holders := sl.holders - multiset{t});
    if used == 0 && sl.pending then FreeLocked(sl'.(used := 1)) else (sl', None)
  }

  /** The test of `alloc_socket` on one slot. */
  predicate Allocatable(sl: Slot) {
    sl.conn == None && sl.used == 0
  }

  function AllocHere(sl: Slot, t: Thread, conn: Netconn): Slot {
    sl.(conn := Some(conn), used := 1, pending := false, holders := sl.holders + multiset{t})
  }

  /** The two halves of a select's announcement on a socket; a full counter refuses. */
  function IncWaiting(sl: Slot, t: Thread): (r: (Slot, bool)) {
    if sl.waiting == WRAP - 1 then (sl, false)
    else (sl.(waiting := sl.waiting + 1, waiters := sl.waiters + multiset{t}), true)
  }

  function DecWaiting(sl: Slot, t: Thread): Slot {
    if sl.waiting > 0 then sl.(waiting := sl.waiting - 1, waiters := sl.waiters - multiset{t}) else sl
  }

  // ---------------------------------------------------------------- the counters count

  /** The counters are the true numbers, as far as 8 bits can tell. */
  ghost predicate Counted(sl: Slot) {
    sl.used == |sl.holders| % WRAP && sl.waiting == |sl.waiters| < WRAP
  }

  lemma Minus(h: multiset<Thread>, t: Thread)
    requires t in h
    ensures |h - multiset{t}| == |h| - 1
  {
    assert h == (h - multiset{t}) + multiset{t};
  }

  lemma IncCounted(sl: Slot, t: Thread)
    requires Counted(sl)
    ensures Counted(IncUsed(sl, t).0) && Counted(IncWaiting(sl, t).0)
  {
    assert |sl.holders + multiset{t}| == |sl.holders| + 1;
    assert |sl.waiters + multiset{t}| == |sl.waiters| + 1;
  }

  /** Counting down in eight bits. */
  lemma Down(n: nat)
    requires n > 0
    ensures (n % WRAP + WRAP - 1) % WRAP == (n - 1) % WRAP
  {
  }

  lemma FreeCounted(sl: Slot, t: Thread)
    requires Counted(sl) && t in sl.holders
    ensures Counted(FreeSocket(sl, t).0)
  {
    Minus(sl.holders, t);
    Down(|sl.holders|);
  }

  lemma DoneCounted(sl: Slot, t: Thread)
    requires Counted(sl) && t in sl.holders
    ensures Counted(DoneSocket(sl, t).0)
  {
    Minus(sl.holders, t);
    Down(|sl.holders|);
  }

  lemma LetGoCounted(sl: Slot, t: Thread)
    requires Counted(sl)
    ensures t in sl.holders ==> Counted(DoneSocket(sl, t).0) && Counted(FreeSocket(sl, t).0)
    ensures t in sl.waiters ==> Counted(DecWaiting(sl, t))
  {
    hide FreeSocket, DoneSocket, FreeLocked;
    if t in sl.holders {
      FreeCounted(sl, t);
      DoneCounted(sl, t);
    }
    if t in sl.waiters {
      Minus(sl.waiters, t);
    }
  }

  // ---------------------------------------------------------------- what a hold guarantees

  /** A close gives the netconn out while others still hold the slot exactly when the true number of
      holds is one more than a positive multiple of 256. With at most 256 holds this cannot happen. */
  lemma CloseLeavesHolders(sl: Slot, t: Thread)
    requires Counted(sl) && t in sl.holders && sl.conn.Some?
    ensures FreeSocket(sl, t).1.Some? && FreeSocket(sl, t).0.holders != multiset{} <==>
              WRAP < |sl.holders| && |sl.holders| % WRAP == 1
    ensures !FreeSocket(sl, t).1.Some? ==> FreeSocket(sl, t).0.pending && FreeSocket(sl, t).0.conn == sl.conn
    ensures sl.holders == multiset{t} ==> FreeSocket(sl, t).1 == sl.conn && FreeSocket(sl, t).0.conn == None
  {
    Minus(sl.holders, t);
  }

  /** The same for the last `done_socket` after a close, which is the only one that gives out. */
  lemma DoneLeavesHolders(sl: Slot, t: Thread)
    requires Counted(sl) && t in sl.holders && sl.conn.Some?
    ensures DoneSocket(sl, t).1.Some? && DoneSocket(sl, t).0.holders != multiset{} <==>
              sl.pending && WRAP < |sl.holders| && |sl.holders| % WRAP == 1
    ensures DoneSocket(sl, t).1.Some? ==> sl.pending
    ensures sl.pending && sl.holders == multiset{t} ==> DoneSocket(sl, t).1 == sl.conn
  {
    Minus(sl.holders, t);
  }

  /** A slot is taken into use again while somebody holds it exactly when the number of holds is a
      positive multiple of 256. */
  lemma ReuseWhileHeld(sl: Slot)
    requires Counted(sl) && sl.conn == None
    ensures Allocatable(sl) && sl.holders != multiset{} <==> 0 < |sl.holders| && |sl.holders| % WRAP == 0
  {
  }

  // ---------------------------------------------------------------- the socket table

  /** The slots, the netconns that were given out for deletion, and those that were ever stored. */
  datatype Table = Table(slots: seq<Slot>, handed: multiset<Netconn>, made: multiset<Netconn>)

  datatype Step =
    | Get(t: Thread, s: nat)
    | Done(t: Thread, s: nat)
    | Close(t: Thread, s: nat)
    | Alloc(t: Thread, s: nat, conn: Netconn)
    | Announce(t: Thread, s: nat)
    | Withdraw(t: Thread, s: nat)

  /** How often `c` is in `o`. */
  function Has(o: Option<Netconn>, c: Netconn): nat {
    if o == Some(c) then 1 else 0
  }

  function With(bag: multiset<Netconn>, o: Option<Netconn>): (r: multiset<Netconn>)
    ensures forall c :: r[c] == bag[c] + Has(o, c)
  {
    match o case None => bag case Some(x) => bag + multiset{x}
  }

  /** The netconn that an allocation stores. */
  function New(step: Step): Option<Netconn> {
    if step.Alloc? then Some(step.conn) else None
  }

  /** Threads let go only what they hold, and close only sockets they saw a netconn in. */
  predicate Possible(sl: Slot, step: Step) {
    match step
    case Get(_, _) => true
    case Done(t, _) => t in sl.holders
    case Close(t, _) => t in sl.holders && sl.conn.Some?
    case Alloc(_, _, _) => Allocatable(sl)
    case Announce(_, _) => true
    case Withdraw(t, _) => t in sl.waiters
  }

  predicate Enabled(tab: Table, step: Step) {
    step.s < |tab.slots| && Possible(tab.slots[step.s], step)
  }

  function After(sl: Slot, step: Step): (r: (Slot, Option<Netconn>)) {
    match step
    case Get(t, _) => (IncUsed(sl, t).0, None)
    case Done(t, _) => DoneSocket(sl, t)
    case Close(t, _) => FreeSocket(sl, t)
    case Alloc(t, _, conn) => (AllocHere(sl, t, conn), None)
    case Announce(t, _) => (IncWaiting(sl, t).0, None)
    case Withdraw(t, _) => (DecWaiting(sl, t), None)
  }

  /** A step that is not enabled does not happen. */
  function Apply(tab: Table, step: Step): Table {
    if !Enabled(tab, step) then tab
    else
      var r := After(tab.slots[step.s], step);
      Table(tab.slots[step.s := r.0], With(tab.handed, r.1), With(tab.made, New(step)))
  }

  function Run(tab: Table, steps: seq<Step>): Table
    decreases |steps|
  {
    if steps == [] then tab else Run(Apply(tab, steps[0]), steps[1..])
  }

  function Empty(n: nat): Table {
    Table(seq(n, _ => VACANT), multiset{}, multiset{})
  }

  /** In how many slots `c` is stored. */
  function Stored(slots: seq<Slot>, c: Netconn): nat {
    if slots == [] then 0 else Has(slots[0].conn, c) + Stored(slots[1..], c)
  }

  ghost predicate AllCounted(slots: seq<Slot>) {
    forall s :: 0 <= s < |slots| ==> Counted(slots[s])
  }

  /** In every run: the counters count, and every netconn that was stored is still in its slot or
      was given out, each as often as it was stored. */
  ghost predicate Consistent(tab: Table) {
    && AllCounted(tab.slots)
    && forall c :: tab.made[c] == tab.handed[c] + Stored(tab.slots, c)
  }

  lemma {:induction false} StoredUpdate(slots: seq<Slot>, s: nat, sl: Slot, c: Netconn)
    requires s < |slots|
    ensures Stored(slots[s := sl], c) + Has(slots[s].conn, c) == Stored(slots, c) + Has(sl.conn, c)
  {
    var up := slots[s := sl];
    if s == 0 {
      assert up[1..] == slots[1..];
    } else {
      assert up[1..] == slots[1..][s - 1 := sl];
      StoredUpdate(slots[1..], s - 1, sl, c);
    }
  }

  lemma {:induction false} StoredEmpty(n: nat, c: Netconn)
    ensures Stored(seq(n, _ => VACANT), c) == 0
  {
    if n > 0 {
      assert seq(n, _ => VACANT)[1..] == seq(n - 1, _ => VACANT);
      StoredEmpty(n - 1, c);
    }
  }

  lemma StepConsistent(tab: Table, step: Step)
    requires Consistent(tab)
    ensures Consistent(Apply(tab, step))
  {
    hide After, Possible, Stored, Has, New, Counted;
    if Enabled(tab, step) {
      var sl := tab.slots[step.s];
      var r := After(sl, step);
      SlotCounted(sl, step);
      forall c ensures Apply(tab, step).made[c] == Apply(tab, step).handed[c] + Stored(tab.slots[step.s := r.0], c) {
        SlotConserves(sl, step, c);
        StoredUpdate(tab.slots, step.s, r.0, c);
      }
    }
  }

  lemma SlotCounted(sl: Slot, step: Step)
    requires Counted(sl)
    requires Possible(sl, step)
    ensures Counted(After(sl, step).0)
  {
    IncCounted(sl, step.t);
    LetGoCounted(sl, step.t);
    if step.Alloc? {
      assert |sl.holders + multiset{step.t}| == |sl.holders| + 1;
    }
  }

  /** A step moves netconns between the slot and the given-out ones, except that an allocation
      stores a new one. */
  lemma SlotConserves(sl: Slot, step: Step, c: Netconn)
    requires Possible(sl, step)
    ensures Has(After(sl, step).0.conn, c) + Has(After(sl, step).1, c) == Has(sl.conn, c) + Has(New(step), c)
  {
  }

  /** Over every run, whatever the threads do. */
  lemma {:induction false} RunConsistent(tab: Table, steps: seq<Step>)
    requires Consistent(tab)
    ensures Consistent(Run(tab, steps))
    decreases |steps|
  {
    if steps != [] {
      StepConsistent(tab, steps[0]);
      RunConsistent(Apply(tab, steps[0]), steps[1..]);
    }
  }

  /** Exactly once per allocation: a netconn that was stored once is afterwards in one slot and not
      given out, or in no slot and given out once. */
  lemma HandedOutOnce(n: nat, steps: seq<Step>, c: Netconn)
    requires Run(Empty(n), steps).made[c] == 1
    ensures var tab := Run(Empty(n), steps);
            && tab.handed[c] + Stored(tab.slots, c) == 1
  {
    forall d ensures Stored(Empty(n).slots, d) == 0 {
      StoredEmpty(n, d);
    }
    RunConsistent(Empty(n), steps);
  }

  // ---------------------------------------------------------------- safety while the counter does not wrap

  /** No slot has 256 holds. */
  ghost predicate Bounded(tab: Table) {
    forall s :: 0 <= s < |tab.slots| ==> |tab.slots[s].holders| < WRAP
  }

  ghost predicate BoundedRun(tab: Table, steps: seq<Step>)
    decreases |steps|
  {
    Bounded(tab) && (steps != [] ==> BoundedRun(Apply(tab, steps[0]), steps[1..]))
  }

  /** A socket that was closed and still has its netconn is held by somebody. */
  ghost predicate ClosingHeld(tab: Table) {
    forall s :: 0 <= s < |tab.slots| ==> PendingHeld(tab.slots[s])
  }

  ghost predicate PendingHeld(sl: Slot) {
    sl.pending && sl.conn.Some? ==> sl.holders != multiset{}
  }

  /** Whoever gives the netconn out was the last holder, and nobody holds a slot that is taken into use. */
  ghost predicate CleanStep(tab: Table, step: Step) {
    Enabled(tab, step) ==>
      && (After(tab.slots[step.s], step).1.Some? ==> After(tab.slots[step.s], step).0.holders == multiset{})
      && (step.Alloc? ==> tab.slots[step.s].holders == multiset{})
  }

  ghost predicate CleanRun(tab: Table, steps: seq<Step>)
    decreases |steps|
  {
    steps == [] || (CleanStep(tab, steps[0]) && CleanRun(Apply(tab, steps[0]), steps[1..]))
  }

  lemma StepClean(sl: Slot, step: Step)
    requires Counted(sl) && |sl.holders| < WRAP && PendingHeld(sl) && Possible(sl, step)
    ensures After(sl, step).1.Some? ==> After(sl, step).0.holders == multiset{}
    ensures step.Alloc? ==> sl.holders == multiset{}
    ensures PendingHeld(After(sl, step).0)
  {
    if step.t in sl.holders {
      Minus(sl.holders, step.t);
    }
  }

  /** In every run in which no slot ever has 256 holds: netconns are given out only when nobody holds
      the slot any more, slots are reused only when nobody holds them, and a closed socket keeps its
      netconn only as long as somebody holds the slot. */
  lemma {:induction false} BoundedRunIsClean(tab: Table, steps: seq<Step>)
    requires Consistent(tab) && ClosingHeld(tab) && BoundedRun(tab, steps)
    ensures CleanRun(tab, steps) && ClosingHeld(Run(tab, steps))
    decreases |steps|
  {
    if steps != [] {
      var step := steps[0];
      hide After, Possible, Counted, PendingHeld;
      if Enabled(tab, step) {
        StepClean(tab.slots[step.s], step);
      }
      StepConsistent(tab, step);
      BoundedRunIsClean(Apply(tab, step), steps[1..]);
    }
  }

  lemma SlotDrains(sl: Slot, step: Step)
    requires sl.pending && sl.conn.Some? && Possible(sl, step)
    ensures var r := After(sl, step);
      if r.1.Some? then r.1 == sl.conn else r.0.pending && r.0.conn == sl.conn && r.0.holders <= sl.holders
  {
  }

  lemma {:induction false} HandedGrows(tab: Table, steps: seq<Step>, c: Netconn)
    ensures Run(tab, steps).handed[c] >= tab.handed[c]
    decreases |steps|
  {
    hide After, Enabled;
    if steps != [] {
      HandedGrows(Apply(tab, steps[0]), steps[1..], c);
    }
  }

  /** Over every run, a socket that was closed while held gains no more holders: it keeps its netconn with fewer and fewer
      of them, until the netconn is given out. */
  lemma {:induction false} ClosedDrains(tab: Table, steps: seq<Step>, s: nat, c: Netconn)
    requires s < |tab.slots| && tab.slots[s].pending && tab.slots[s].conn == Some(c)
    ensures var end := Run(tab, steps);
      || end.handed[c] > tab.handed[c]
      || (s < |end.slots| && end.slots[s].pending && end.slots[s].conn == Some(c) && end.slots[s].holders <= tab.slots[s].holders)
    decreases |steps|
  {
    hide After, Possible;
    if steps != [] {
      var step, next := steps[0], Apply(tab, steps[0]);
      if Enabled(tab, step) && step.s == s {
        SlotDrains(tab.slots[s], step);
      }
      if next.handed[c] > tab.handed[c] {
        HandedGrows(next, steps[1..], c);
      } else {
        ClosedDrains(next, steps[1..], s, c);
      }
    }
  }

  lemma TwoHolders(h: multiset<Thread>, t: Thread, u: Thread)
    requires t in h && u in h && t != u
    ensures 2 <= |h|
  {
    Minus(h, t);
    Minus(h - multiset{t}, u);
  }

  lemma SlotPinsNetconn(sl: Slot, step: Step, t: Thread)
    requires Counted(sl) && |sl.holders| < WRAP && t in sl.holders && Possible(sl, step)
    requires step.t != t || (!step.Done? && !step.Close?)
    ensures After(sl, step).0.conn == sl.conn
  {
    hide InEight;
    if step.Done? || step.Close? {
      TwoHolders(sl.holders, t, step.t);
    }
  }

  /** A thread that holds a slot keeps seeing the same netconn in it, whatever other threads do. */
  lemma HoldPinsNetconn(tab: Table, step: Step, t: Thread, s: nat)
    requires Consistent(tab) && Bounded(tab) && s < |tab.slots| && t in tab.slots[s].holders
    requires step.t != t || step.s != s || (!step.Done? && !step.Close?)
    ensures s < |Apply(tab, step).slots| && Apply(tab, step).slots[s].conn == tab.slots[s].conn
  {
    hide After, Possible, Counted;
    if Enabled(tab, step) && step.s == s {
      SlotPinsNetconn(tab.slots[s], step, t);
    }
  }

  /** A thread that holds slots keeps its holds and keeps seeing the same netconns in them over every run of other
      threads. So the sockets of a select that holds them stay the same while it sleeps. */
  lemma {:induction false} HeldSlotsStay(tab: Table, steps: seq<Step>, t: Thread, held: set<nat>)
    requires Consistent(tab) && BoundedRun(tab, steps)
    requires forall s :: s in held ==> s < |tab.slots| && t in tab.slots[s].holders
    requires forall i :: 0 <= i < |steps| ==> steps[i].t != t
    ensures |Run(tab, steps).slots| == |tab.slots|
    ensures forall s :: s in held ==>
              t in Run(tab, steps).slots[s].holders && Run(tab, steps).slots[s].conn == tab.slots[s].conn
    decreases |steps|
  {
    if steps != [] {
      var step := steps[0];
      hide After, Possible, Counted;
      var after := Apply(tab, step);
      forall s | s in held
        ensures t in after.slots[s].holders && after.slots[s].conn == tab.slots[s].conn
      {
        HoldPinsNetconn(tab, step, t, s);
        if Enabled(tab, step) && step.s == s {
          OthersHold(tab.slots[s], step, t);
        }
      }
      StepConsistent(tab, step);
      hide Apply;
      assert forall i :: 0 <= i < |steps[1..]| ==> steps[1..][i] == steps[i + 1];
      HeldSlotsStay(after, steps[1..], t, held);
    }
  }

  lemma OthersHold(sl: Slot, step: Step, t: Thread)
    requires step.t != t
    ensures After(sl, step).0.holders[t] == sl.holders[t]
  {
  }

  // ---------------------------------------------------------------- where the counter wraps

  /** The threads from 1 to `n`. */
  function People(n: nat): multiset<Thread> {
    if n == 0 then multiset{} else People(n - 1) + multiset{n}
  }

  lemma {:induction false} PeopleAre(n: nat)
    ensures forall t: Thread :: People(n)[t] == if 1 <= t <= n then 1 else 0
  {
    if n > 0 {
      PeopleAre(n - 1);
    }
  }

  function InEight(n: nat): nat {
    n % WRAP
  }

  /** A slot that thread 0 has allocated and that the threads from 1 to `n` hold. */
  function Crowd(n: nat): Slot {
    Slot(Some(9), InEight(n + 1), false, 0, People(n) + multiset{0}, multiset{})
  }

  function CrowdTable(n: nat): Table {
    Table([Crowd(n)], multiset{}, multiset{9})
  }

  function Gets(n: nat): seq<Step> {
    if n == 0 then [] else Gets(n - 1) + [Get(n, 0)]
  }

  lemma {:induction false} RunThen(tab: Table, a: seq<Step>, b: seq<Step>)
    ensures Run(tab, a + b) == Run(Run(tab, a), b)
    decreases |a|
  {
    hide Apply;
    if a == [] {
      assert a + b == b;
    } else {
      assert (a + b)[1..] == a[1..] + b;
      RunThen(Apply(tab, a[0]), a[1..], b);
    }
  }

  lemma RunOne(tab: Table, step: Step)
    ensures Run(tab, [step]) == Apply(tab, step)
  {
    hide Apply;
    assert [step][1..] == [];
  }

  lemma OneMoreHolder(n: nat)
    ensures People(n) + multiset{0} + multiset{n + 1} == People(n + 1) + multiset{0}
  {
    var p := People(n);
    assert People(n + 1) == p + multiset{n + 1};
    hide People;
  }

  lemma CountsUp(n: nat)
    ensures (InEight(n) + 1) % WRAP == InEight(n + 1)
  {
  }

  lemma OneMoreGet(n: nat)
    ensures Apply(CrowdTable(n), Get(n + 1, 0)) == CrowdTable(n + 1)
  {
    hide People, InEight;
    OneMoreHolder(n);
    CountsUp(n + 1);
    assert [Crowd(n)][0 := Crowd(n + 1)] == [Crowd(n + 1)];
  }

  lemma {:induction false} ManyGets(n: nat)
    ensures Run(CrowdTable(0), Gets(n)) == CrowdTable(n)
    decreases n
  {
    hide Apply, CrowdTable;
    if n > 0 {
      ManyGets(n - 1);
      RunThen(CrowdTable(0), Gets(n - 1), [Get(n, 0)]);
      RunOne(CrowdTable(n - 1), Get(n, 0));
      OneMoreGet(n - 1);
    }
  }

  /** The run that allocates slot 0 and then takes `n` more holds on it. */
  function Crowding(n: nat): seq<Step> {
    [Alloc(0, 0, 9)] + Gets(n)
  }

  lemma CrowdComes(n: nat)
    ensures Run(Empty(1), Crowding(n)) == CrowdTable(n)
  {
    assert Apply(Empty(1), Alloc(0, 0, 9)) == CrowdTable(0) by {
      assert Empty(1).slots == [VACANT];
      assert multiset{} + multiset{0} == People(0) + multiset{0};
      assert [VACANT][0 := Crowd(0)] == [Crowd(0)];
    }
    hide Apply, Run, CrowdTable, Empty;
    RunThen(Empty(1), [Alloc(0, 0, 9)], Gets(n));
    RunOne(Empty(1), Alloc(0, 0, 9));
    ManyGets(n);
  }

  /** The slot after a close that leaves `n` holders. */
  function Leaving(n: nat, given: bool): Slot {
    Slot(if given then None else Some(9), if given then 0 else 1, !given, 0, People(n), multiset{})
  }

  function LeavingTable(n: nat, given: bool): Table {
    Table([Leaving(n, given)], if given then multiset{9} else multiset{}, multiset{9})
  }

  lemma FreeOne(p: multiset<Thread>, used: nat)
    requires used == 1 || used == 2
    ensures FreeSocket(Slot(Some(9), used, false, 0, p + multiset{0}, multiset{}), 0)
            == (Slot(if used == 1 then None else Some(9), used - 1, used == 2, 0, p, multiset{}),
                if used == 1 then Some(9) else None)
  {
    assert p + multiset{0} - multiset{0} == p;
  }

  lemma PastWrap()
    ensures InEight(WRAP + 1) == 1 && InEight(WRAP + 2) == 2
  {
  }

  lemma CrowdCloses(n: nat)
    requires n == WRAP || n == WRAP + 1
    ensures Apply(CrowdTable(n), Close(0, 0)) == LeavingTable(n, n == WRAP)
  {
    hide People, InEight, FreeSocket;
    PastWrap();
    FreeOne(People(n), InEight(n + 1));
    assert [Crowd(n)][0 := Leaving(n, n == WRAP)] == [Leaving(n, n == WRAP)];
  }

  /** Each of the threads from `m` to `n` holds the slot. */
  ghost predicate HeldByAll(sl: Slot, m: nat, n: nat) {
    forall t: Thread :: m <= t <= n ==> t in sl.holders
  }

  lemma Reused(n: nat)
    ensures var tab := Apply(LeavingTable(n, true), Alloc(0, 0, 10));
            |tab.slots| == 1 && tab.slots[0].conn == Some(10) && HeldByAll(tab.slots[0], 1, n)
  {
    PeopleAre(n);
  }

  lemma LetsGo(n: nat)
    requires n > 0
    ensures var tab := Apply(LeavingTable(n, false), Done(1, 0));
            tab.handed == multiset{9} && |tab.slots| == 1 && HeldByAll(tab.slots[0], 2, n)
  {
    PeopleAre(n);
  }

  /** A close with 257 holds gives the netconn out while 256 are left, and then the slot is allocated again. */
  lemma ClosedAndReusedWhileHeld(n: nat)
    requires n == WRAP
    ensures var tab := Run(Empty(1), Crowding(n) + [Close(0, 0)]);
            tab.handed == multiset{9} && |tab.slots| == 1 && HeldByAll(tab.slots[0], 1, n)
    ensures var tab := Run(Empty(1), Crowding(n) + [Close(0, 0)] + [Alloc(0, 0, 10)]);
            |tab.slots| == 1 && tab.slots[0].conn == Some(10) && HeldByAll(tab.slots[0], 1, n)
  {
    PeopleAre(n);
    hide Apply, Run, Empty, Crowding, CrowdTable, People;
    CrowdComes(n);
    CrowdCloses(n);
    RunThen(Empty(1), Crowding(n), [Close(0, 0)]);
    RunOne(CrowdTable(n), Close(0, 0));
    RunThen(Empty(1), Crowding(n) + [Close(0, 0)], [Alloc(0, 0, 10)]);
    RunOne(LeavingTable(n, true), Alloc(0, 0, 10));
    Reused(n);
  }

  /** The same by the last `done_socket` after a close that left 257 holds. */
  lemma DoneWhileHeld(n: nat)
    requires n == WRAP + 1
    ensures var tab := Run(Empty(1), Crowding(n) + [Close(0, 0)] + [Done(1, 0)]);
            tab.handed == multiset{9} && |tab.slots| == 1 && HeldByAll(tab.slots[0], 2, n)
  {
    hide Apply, Run, Empty, Crowding, CrowdTable, People;
    CrowdComes(n);
    CrowdCloses(n);
    RunThen(Empty(1), Crowding(n), [Close(0, 0)]);
    RunOne(CrowdTable(n), Close(0, 0));
    RunThen(Empty(1), Crowding(n) + [Close(0, 0)], [Done(1, 0)]);
    RunOne(LeavingTable(n, false), Done(1, 0));
    LetsGo(n);
  }
}
