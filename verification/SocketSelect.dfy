/** `lwip_select` in full-duplex mode, as far as it raises and lowers the counters of socket slots.
    Other threads act between any two protected sections. What a scan reads of a socket, whether memory
    runs out and whether the wait times out are inputs. */
module SocketSelect {
  import opened Options
  import opened SocketHolds
  import opened SocketStatus

  /** What the surroundings decide during one call. `scans` holds the status of each examined socket, in the order of
      examination. */
  datatype Surroundings =
    Surroundings(scans: seq<Status>, noTime: bool, noCallback: bool, noSemaphore: bool, timedOut: bool)

  /** The three sets given to select, and those it gives back; a set that is not given wants nothing. */
  datatype Sets = Sets(read: set<nat>, write: set<nat>, except: set<nat>) {
    predicate Wants(i: nat) {
      i in read || i in write || i in except
    }

    function Of(k: Kind): set<nat> {
      match k
      case Read => read
      case Write => write
      case Except => except
    }
  }

  /** The wanted sockets below `n`. */
  ghost function WantedBelow(want: Sets, n: nat): set<nat> {
    set i: nat | i < n && want.Wants(i)
  }

  /** How many sockets below `n` are wanted. */
  function CountWanted(want: Sets, n: nat): nat {
    if n == 0 then 0 else CountWanted(want, n - 1) + if want.Wants(n - 1) then 1 else 0
  }

  lemma {:induction false} CountIsSize(want: Sets, n: nat)
    ensures |WantedBelow(want, n)| == CountWanted(want, n)
    decreases n
  {
    if n == 0 {
      assert WantedBelow(want, 0) == {};
    } else {
      CountIsSize(want, n - 1);
      assert WantedBelow(want, n) == WantedBelow(want, n - 1) + if want.Wants(n - 1) then {n - 1} else {};
    }
  }

  lemma CountOne(want: Sets, i: nat)
    ensures CountWanted(want, i + 1) == CountWanted(want, i) + if want.Wants(i) then 1 else 0
  {
  }

  /** The status of socket `i` in a scan that starts with examination number `from`. */
  function StatusOf(want: Sets, scans: seq<Status>, from: nat, i: nat): Status {
    var k := from + CountWanted(want, i);
    if k < |scans| then scans[k] else Status(false, 0, false, false)
  }

  /** `found` holds exactly the wanted sockets below `n` that the scan saw ready. */
  ghost predicate Found(want: Sets, k: Kind, n: nat, scans: seq<Status>, from: nat, found: set<nat>) {
    forall i: nat :: i in found <==> i < n && i in want.Of(k) && StatusOf(want, scans, from, i).Ready(k)
  }

  /** `found` and `nready` are what a complete scan that starts with examination number `from` gives. */
  ghost predicate Scanned(want: Sets, maxfd: nat, scans: seq<Status>, from: nat, upto: nat, found: Sets, nready: int) {
    && upto == from + CountWanted(want, maxfd)
    && (forall k :: Found(want, k, maxfd, scans, from, found.Of(k)))
    && nready == |found.read| + |found.write| + |found.except|
  }

  /** One set with socket `i` added if it is ready. */
  function Noted(found: set<nat>, wanted: set<nat>, i: nat, ready: bool): set<nat> {
    if i in wanted && ready then found + {i} else found
  }

  lemma FoundOne(want: Sets, k: Kind, i: nat, scans: seq<Status>, from: nat, found: set<nat>)
    requires Found(want, k, i, scans, from, found)
    ensures var ready := StatusOf(want, scans, from, i).Ready(k); var more := Noted(found, want.Of(k), i, ready);
      && Found(want, k, i + 1, scans, from, more)
      && |more| == |found| + if i in want.Of(k) && ready then 1 else 0
  {
    hide StatusOf;
    assert i !in found;
  }

  /** The sets with socket `i` added where it is ready, and how many sets that are. */
  function NotedAll(found: Sets, want: Sets, i: nat, s: Status): Sets {
    Sets(Noted(found.read, want.read, i, s.Ready(Read)), Noted(found.write, want.write, i, s.Ready(Write)),
         Noted(found.except, want.except, i, s.Ready(Except)))
  }

  function Conditions(want: Sets, i: nat, s: Status): nat {
    (if i in want.read && s.Ready(Read) then 1 else 0) + (if i in want.write && s.Ready(Write) then 1 else 0)
    + (if i in want.except && s.Ready(Except) then 1 else 0)
  }

  lemma ScannedOne(want: Sets, i: nat, scans: seq<Status>, from: nat, upto: nat, found: Sets, nready: int)
    requires Scanned(want, i, scans, from, upto, found, nready) && want.Wants(i)
    ensures var s := StatusOf(want, scans, from, i);
      Scanned(want, i + 1, scans, from, upto + 1, NotedAll(found, want, i, s), nready + Conditions(want, i, s))
  {
    hide CountWanted, Found, StatusOf, Noted, Status.Ready;
    CountOne(want, i);
    FoundOne(want, Read, i, scans, from, found.Of(Read));
    FoundOne(want, Write, i, scans, from, found.Of(Write));
    FoundOne(want, Except, i, scans, from, found.Of(Except));
  }

  lemma ScannedSkip(want: Sets, i: nat, scans: seq<Status>, from: nat, upto: nat, found: Sets, nready: int)
    requires Scanned(want, i, scans, from, upto, found, nready) && !want.Wants(i)
    ensures Scanned(want, i + 1, scans, from, upto, found, nready)
  {
    hide StatusOf, CountWanted;
    CountOne(want, i);
    forall k
      ensures Found(want, k, i + 1, scans, from, found.Of(k))
    {
      FoundOne(want, k, i, scans, from, found.Of(k));
    }
  }

  lemma ScannedNone(want: Sets, scans: seq<Status>, from: nat)
    ensures Scanned(want, 0, scans, from, from, Sets({}, {}, {}), 0)
  {
  }

  /** From `a` to `b`, thread `me` gained one hold on each slot in `held` and one announcement on each
      slot in `told`, and nothing else. */
  ghost predicate Gained(a: seq<Slot>, b: seq<Slot>, me: Thread, held: set<nat>, told: set<nat>) {
    && |a| == |b|
    && (forall s :: 0 <= s < |a| ==>
          && b[s].holders[me] == a[s].holders[me] + (if s in held then 1 else 0)
          && b[s].waiters[me] == a[s].waiters[me] + (if s in told then 1 else 0))
    && (forall s :: s in held || s in told ==> s < |a|)
  }

  ghost predicate SamePending(a: seq<Slot>, b: seq<Slot>) {
    |a| == |b| && forall s :: 0 <= s < |a| ==> b[s].pending == a[s].pending
  }

  ghost predicate SameWaiting(a: seq<Slot>, b: seq<Slot>) {
    |a| == |b| && forall s :: 0 <= s < |a| ==> b[s].waiting == a[s].waiting
  }

  /** Socket `i` exists and has no free pending, so it can be held. */
  ghost predicate There(slots: seq<Slot>, i: nat) {
    i < |slots| && !slots[i].pending
  }

  /** All wanted sockets below `n` can be held. */
  ghost predicate AllThere(slots: seq<Slot>, want: Sets, n: nat) {
    forall i: nat :: i < n && want.Wants(i) ==> There(slots, i)
  }

  /** No wanted socket below `n` has as many waiters as its counter can count. */
  ghost predicate RoomToWait(slots: seq<Slot>, want: Sets, n: nat) {
    forall i: nat :: i < n && want.Wants(i) && i < |slots| ==> slots[i].waiting < WRAP - 1
  }

  lemma StillThere(a: seq<Slot>, b: seq<Slot>, want: Sets, n: nat)
    requires SamePending(a, b)
    ensures AllThere(a, want, n) <==> AllThere(b, want, n)
  {
    forall i: nat
      ensures There(a, i) <==> There(b, i)
    {
    }
  }

  lemma StillRoom(a: seq<Slot>, b: seq<Slot>, want: Sets, n: nat)
    requires SameWaiting(a, b)
    ensures RoomToWait(a, want, n) <==> RoomToWait(b, want, n)
  {
  }

  /** A scan that starts with examination number `from` finds nothing. */
  ghost predicate NothingReady(want: Sets, n: nat, scans: seq<Status>, from: nat) {
    forall k, i: nat :: i < n && i in want.Of(k) ==> !StatusOf(want, scans, from, i).Ready(k)
  }

  lemma ScannedEnds(want: Sets, n: nat, scans: seq<Status>, upto: nat, found: Sets, nready: int)
    ensures forall from: nat :: Scanned(want, n, scans, from, upto, found, nready) ==> upto == from + CountWanted(want, n)
  {
  }

  lemma NothingFound(want: Sets, n: nat, scans: seq<Status>, from: nat, upto: nat, found: Sets, nready: int)
    requires Scanned(want, n, scans, from, upto, found, nready)
    ensures nready == 0 <==> NothingReady(want, n, scans, from)
    ensures upto == from + CountWanted(want, n)
  {
    hide StatusOf, CountWanted;
    assert found.Of(Read) == found.read && found.Of(Write) == found.write && found.Of(Except) == found.except;
    if nready == 0 {
      assert found.read == {} && found.write == {} && found.except == {};
      forall k, i: nat | i < n && i in want.Of(k)
        ensures !StatusOf(want, scans, from, i).Ready(k)
      {
        assert i !in found.Of(k);
      }
    }
    if NothingReady(want, n, scans, from) {
      forall k
        ensures found.Of(k) == {}
      {
        assert Found(want, k, n, scans, from, found.Of(k));
      }
    }
  }

  /** Steps of other threads leave the holds and announcements of `me` alone. */
  lemma OthersKeep(tab: Table, step: Step, me: Thread)
    requires step.t != me
    ensures Gained(tab.slots, Apply(tab, step).slots, me, {}, {})
  {
    hide After, With, Possible;
    if Enabled(tab, step) {
      OtherSlot(tab.slots[step.s], step, me);
    }
  }

  lemma OtherSlot(sl: Slot, step: Step, me: Thread)
    requires step.t != me
    ensures After(sl, step).0.holders[me] == sl.holders[me] && After(sl, step).0.waiters[me] == sl.waiters[me]
  {
  }

  lemma SlotCounts(tab: Table, i: nat)
    requires Consistent(tab) && i < |tab.slots|
    ensures Counted(tab.slots[i])
  {
  }

  lemma GainedThen(a: seq<Slot>, b: seq<Slot>, c: seq<Slot>, me: Thread, held: set<nat>, told: set<nat>)
    requires Gained(a, b, me, held, told) && Gained(b, c, me, {}, {})
    ensures Gained(a, c, me, held, told)
  {
  }

  lemma GainedSame(a: seq<Slot>, me: Thread)
    ensures Gained(a, a, me, {}, {})
  {
  }

  lemma GainedMore(a: seq<Slot>, b: seq<Slot>, c: seq<Slot>, me: Thread, held: set<nat>, told: set<nat>, h: set<nat>, t: set<nat>)
    requires Gained(a, b, me, held, told) && Gained(b, c, me, h, t) && held !! h && told !! t
    ensures Gained(a, c, me, held + h, told + t)
  {
  }

  /** Undoing a gain. */
  lemma GainedLess(a: seq<Slot>, b: seq<Slot>, c: seq<Slot>, me: Thread, held: set<nat>, told: set<nat>, h: set<nat>, t: set<nat>)
    requires Gained(a, b, me, held, told) && Gained(c, b, me, h, t) && h <= held && t <= told
    ensures Gained(a, c, me, held - h, told - t)
  {
  }

  lemma Holds(a: seq<Slot>, b: seq<Slot>, me: Thread, held: set<nat>, told: set<nat>, i: nat)
    requires Gained(a, b, me, held, told) && i in held
    ensures i < |a| == |b| && me in b[i].holders
  {
  }

  lemma PendingThen(a: seq<Slot>, b: seq<Slot>, c: seq<Slot>)
    ensures SamePending(a, b) && SamePending(b, c) ==> SamePending(a, c)
  {
  }

  /** The own steps change the own counts by one on one slot. */
  lemma OwnHold(sl: Slot, me: Thread, i: nat)
    ensures !sl.pending ==> After(sl, Get(me, i)).0.holders[me] == sl.holders[me] + 1
    ensures After(sl, Get(me, i)).0.waiters == sl.waiters && After(sl, Get(me, i)).0.pending == sl.pending
    ensures After(sl, Get(me, i)).0.waiting == sl.waiting
  {
  }

  lemma OwnRelease(sl: Slot, me: Thread, i: nat)
    ensures me in sl.holders ==> After(sl, Done(me, i)).0.holders[me] == sl.holders[me] - 1
    ensures After(sl, Done(me, i)).0.waiters == sl.waiters
    ensures After(sl, Done(me, i)).0.pending == sl.pending && After(sl, Done(me, i)).0.waiting == sl.waiting
  {
  }

  lemma OwnTell(sl: Slot, me: Thread, i: nat)
    ensures After(sl, Announce(me, i)).0.holders == sl.holders == After(sl, Withdraw(me, i)).0.holders
    ensures After(sl, Announce(me, i)).0.pending == sl.pending == After(sl, Withdraw(me, i)).0.pending
    ensures sl.waiting < WRAP - 1 ==> After(sl, Announce(me, i)).0.waiters[me] == sl.waiters[me] + 1
    ensures 0 < sl.waiting && me in sl.waiters ==> After(sl, Withdraw(me, i)).0.waiters[me] == sl.waiters[me] - 1
  {
  }

  lemma AllocStep(sl: Slot, me: Thread, i: nat, conn: Netconn)
    ensures After(sl, Alloc(me, i, conn)).0.holders[me] == sl.holders[me] + 1
    ensures After(sl, Alloc(me, i, conn)).0.waiters == sl.waiters
    ensures After(sl, Alloc(me, i, conn)).0.conn == Some(conn) && !After(sl, Alloc(me, i, conn)).0.pending
  {
  }

  class Sockets {
    var tab: Table
    /** `others[k]` is what other threads do in the k-th unprotected stretch. */
    var others: seq<seq<Step>>
    var now: nat

    constructor (n: nat, others: seq<seq<Step>>)
      ensures Consistent(tab) && tab == Empty(n) && this.others == others && now == 0
    {
      tab := Empty(n);
      this.others := others;
      now := 0;
      forall d ensures Stored(Empty(n).slots, d) == 0 {
        StoredEmpty(n, d);
      }
    }

    /** The others do nothing any more. */
    ghost predicate Quiet()
      reads this
    {
      now >= |others|
    }

    /** An unprotected stretch. */
    method Gap(me: Thread)
      requires Consistent(tab)
      modifies this
      ensures Consistent(tab) && Gained(old(tab.slots), tab.slots, me, {}, {})
      ensures |tab.slots| == |old(tab.slots)|
      ensures others == old(others) && now == old(now) + 1 && (old(now) >= |others| ==> tab == old(tab))
    {
      if now < |others| {
        var j := 0;
        while j < |others[now]|
          invariant now == old(now) && others == old(others)
          invariant Consistent(tab) && Gained(old(tab.slots), tab.slots, me, {}, {})
        {
          var step := others[now][j];
          if step.t != me {
            StepConsistent(tab, step);
            OthersKeep(tab, step, me);
            GainedThen(old(tab.slots), tab.slots, Apply(tab, step).slots, me, {}, {});
            tab := Apply(tab, step);
          }
          j := j + 1;
        }
      }
      now := now + 1;
    }

    /** `tryget_socket_unconn_locked`. */
    method TryGet(me: Thread, i: nat) returns (ok: bool)
      requires Consistent(tab)
      modifies this`tab
      ensures Consistent(tab)
      ensures Gained(old(tab.slots), tab.slots, me, if ok then {i} else {}, {})
      ensures ok <==> There(old(tab.slots), i)
      ensures SamePending(old(tab.slots), tab.slots) && SameWaiting(old(tab.slots), tab.slots)
    {
      hide Consistent, After;
      ok := i < |tab.slots| && !tab.slots[i].pending;
      if ok {
        StepConsistent(tab, Get(me, i));
        OwnHold(tab.slots[i], me, i);
        tab := Apply(tab, Get(me, i));
      }
    }

    /** `done_socket`. */
    method LetGo(me: Thread, i: nat)
      requires Consistent(tab) && i < |tab.slots| && me in tab.slots[i].holders
      modifies this`tab
      ensures Consistent(tab) && Gained(tab.slots, old(tab.slots), me, {i}, {})
      ensures SamePending(old(tab.slots), tab.slots) && SameWaiting(old(tab.slots), tab.slots)
    {
      hide Consistent, After;
      StepConsistent(tab, Done(me, i));
      OwnRelease(tab.slots[i], me, i);
      tab := Apply(tab, Done(me, i));
    }

    /** Raise `select_waiting` of a slot, unless the counter is full. */
    method Tell(me: Thread, i: nat) returns (ok: bool)
      requires Consistent(tab) && i < |tab.slots|
      modifies this`tab
      ensures Consistent(tab) && Gained(old(tab.slots), tab.slots, me, {}, if ok then {i} else {})
      ensures ok <==> old(tab.slots)[i].waiting < WRAP - 1
      ensures SamePending(old(tab.slots), tab.slots)
      ensures forall s :: 0 <= s < |tab.slots| && s != i ==> tab.slots[s].waiting == old(tab.slots)[s].waiting
    {
      hide Consistent, After, Counted;
      ok := tab.slots[i].waiting < WRAP - 1;
      if ok {
        StepConsistent(tab, Announce(me, i));
        OwnTell(tab.slots[i], me, i);
        tab := Apply(tab, Announce(me, i));
      }
    }

    /** Lower `select_waiting` of a slot. */
    method Untell(me: Thread, i: nat)
      requires Consistent(tab) && i < |tab.slots| && me in tab.slots[i].waiters
      modifies this`tab
      ensures Consistent(tab) && Gained(tab.slots, old(tab.slots), me, {}, {i}) && SamePending(old(tab.slots), tab.slots)
    {
      hide Consistent, After;
      SlotCounts(tab, i);
      StepConsistent(tab, Withdraw(me, i));
      OwnTell(tab.slots[i], me, i);
      tab := Apply(tab, Withdraw(me, i));
    }

    /** The protected part of `alloc_socket`: take slot `i`. */
    method Occupy(me: Thread, i: nat, conn: Netconn)
      requires Consistent(tab) && i < |tab.slots| && Allocatable(tab.slots[i])
      modifies this`tab
      ensures Consistent(tab) && Gained(old(tab.slots), tab.slots, me, {i}, {}) && |tab.slots| == |old(tab.slots)|
      ensures tab.slots[i].conn == Some(conn) && !tab.slots[i].pending
    {
      hide Consistent, After;
      StepConsistent(tab, Alloc(me, i, conn));
      AllocStep(tab.slots[i], me, i, conn);
      tab := Apply(tab, Alloc(me, i, conn));
    }

    /** `alloc_socket`: take the first slot that is free when its turn comes. */
    method AllocSocket(me: Thread, conn: Netconn) returns (r: int)
      requires Consistent(tab)
      modifies this
      ensures Consistent(tab) && -1 <= r < |old(tab.slots)|
      ensures Gained(old(tab.slots), tab.slots, me, if r < 0 then {} else {r as nat}, {})
      ensures 0 <= r ==> r < |tab.slots| && tab.slots[r].conn == Some(conn) && !tab.slots[r].pending
      ensures old(Quiet()) ==>
                && (forall s :: 0 <= s < (if r < 0 then |old(tab.slots)| else r) ==> !Allocatable(old(tab.slots)[s]))
                && (0 <= r ==> Allocatable(old(tab.slots)[r]))
    {
      hide Consistent, After, Allocatable, Gained;
      GainedSame(tab.slots, me);
      for i := 0 to |tab.slots|
        invariant Consistent(tab) && Gained(old(tab.slots), tab.slots, me, {}, {}) && |tab.slots| == |old(tab.slots)|
        invariant others == old(others) && now >= old(now) && (old(now) >= |others| ==> tab == old(tab))
        invariant old(now) >= |others| ==> forall s :: 0 <= s < i ==> !Allocatable(old(tab.slots)[s])
      {
        if Allocatable(tab.slots[i]) {
          ghost var c := tab.slots;
          Occupy(me, i, conn);
          ghost var none: set<nat> := {};
          GainedMore(old(tab.slots), c, tab.slots, me, none, none, {i}, none);
          assert none + {i} == {i} && none + none == none;
          return i;
        }
        ghost var b := tab.slots;
        Gap(me);
        GainedThen(old(tab.slots), b, tab.slots, me, {}, {});
      }
      return -1;
    }

    /** One socket in `lwip_selscan`: hold it, look at it, let it go. */
    method Examine(me: Thread, i: nat) returns (ok: bool)
      requires Consistent(tab)
      modifies this
      ensures Consistent(tab) && Gained(old(tab.slots), tab.slots, me, {}, {})
      ensures others == old(others) && now >= old(now)
      ensures ok <==> There(old(tab.slots), i)
      ensures old(Quiet()) ==> SamePending(old(tab.slots), tab.slots) && SameWaiting(old(tab.slots), tab.slots)
    {
      hide Consistent;
      ghost var a := tab.slots;
      ok := TryGet(me, i);
      if ok {
        ghost var b := tab.slots;
        Gap(me);
        GainedThen(a, b, tab.slots, me, {i}, {});
        ghost var c := tab.slots;
        LetGo(me, i);
        GainedLess(a, c, tab.slots, me, {i}, {}, {i}, {});
      }
      ghost var d := tab.slots;
      Gap(me);
      GainedThen(a, d, tab.slots, me, {}, {});
    }

    /** `lwip_selscan`: the number of conditions met, or -1 if a wanted socket cannot be held. */
    method Scan(me: Thread, maxfd: nat, want: Sets, scans: seq<Status>, from: nat)
      returns (nready: int, upto: nat, found: Sets)
      requires Consistent(tab)
      modifies this
      ensures Consistent(tab) && Gained(old(tab.slots), tab.slots, me, {}, {}) && -1 <= nready
      ensures 0 <= nready ==> Scanned(want, maxfd, scans, from, upto, found, nready)
      ensures others == old(others) && now >= old(now)
      ensures old(Quiet()) ==> SamePending(old(tab.slots), tab.slots) && SameWaiting(old(tab.slots), tab.slots)
      ensures old(Quiet()) ==> (0 <= nready <==> AllThere(old(tab.slots), want, maxfd))
    {
      hide Consistent, Gained, Scanned, NotedAll, Conditions;
      nready, upto, found := 0, from, Sets({}, {}, {});
      GainedSame(tab.slots, me);
      ScannedNone(want, scans, from);
      for i := 0 to maxfd
        invariant Consistent(tab) && Gained(old(tab.slots), tab.slots, me, {}, {}) && 0 <= nready
        invariant Scanned(want, i, scans, from, upto, found, nready) && upto == from + CountWanted(want, i)
        invariant others == old(others) && now >= old(now)
        invariant old(Quiet()) ==> SamePending(old(tab.slots), tab.slots) && SameWaiting(old(tab.slots), tab.slots)
        invariant old(Quiet()) ==> AllThere(old(tab.slots), want, i)
      {
        CountOne(want, i);
        if want.Wants(i) {
          ghost var b := tab.slots;
          var ok := Examine(me, i);
          GainedThen(old(tab.slots), b, tab.slots, me, {}, {});
          if !ok {
            return -1, upto, want;
          }
          var status := if upto < |scans| then scans[upto] else Status(false, 0, false, false);
          ScannedOne(want, i, scans, from, upto, found, nready);
          nready, found := nready + Conditions(want, i, status), NotedAll(found, want, i, status);
          upto := upto + 1;
        } else {
          ScannedSkip(want, i, scans, from, upto, found, nready);
        }
      }
    }

    /** `lwip_select_inc_sockets_used_set`. */
    method HoldSet(me: Thread, maxfd: nat, fdset: set<nat>, used: set<nat>) returns (used': set<nat>)
      requires Consistent(tab) && forall s :: s in used ==> s < maxfd
      modifies this
      ensures Consistent(tab) && used <= used' <= used + fdset
      ensures Gained(old(tab.slots), tab.slots, me, used' - used, {})
      ensures forall s :: s in used' ==> s < maxfd
      ensures others == old(others) && now >= old(now)
      ensures old(Quiet()) ==> SamePending(old(tab.slots), tab.slots) && SameWaiting(old(tab.slots), tab.slots)
      ensures old(Quiet()) ==> forall i: nat :: i in fdset && i < maxfd && There(old(tab.slots), i) ==> i in used'
    {
      hide Consistent, Gained;
      used' := used;
      GainedSame(tab.slots, me);
      assert used' - used == {};
      for i := 0 to maxfd
        invariant Consistent(tab) && used <= used' <= used + fdset
        invariant Gained(old(tab.slots), tab.slots, me, used' - used, {})
        invariant forall s :: s in used' ==> s < maxfd
        invariant others == old(others) && now >= old(now)
        invariant old(Quiet()) ==> SamePending(old(tab.slots), tab.slots) && SameWaiting(old(tab.slots), tab.slots)
        invariant old(Quiet()) ==> forall j: nat :: j in fdset && j < i && There(old(tab.slots), j) ==> j in used'
      {
        if i in fdset && i !in used' {
          ghost var b := tab.slots;
          var ok := TryGet(me, i);
          if ok {
            GainedMore(old(tab.slots), b, tab.slots, me, used' - used, {}, {i}, {});
            assert used' + {i} - used == (used' - used) + {i};
            used' := used' + {i};
          } else {
            GainedThen(old(tab.slots), b, tab.slots, me, used' - used, {});
          }
          ghost var c := tab.slots;
          Gap(me);
          GainedThen(old(tab.slots), c, tab.slots, me, used' - used, {});
        }
      }
    }

    /** `lwip_select_dec_sockets_used`. */
    method ReleaseSet(me: Thread, maxfd: nat, used: set<nat>, ghost base: seq<Slot>)
      requires Consistent(tab) && Gained(base, tab.slots, me, used, {}) && forall s :: s in used ==> s < maxfd
      modifies this
      ensures Consistent(tab) && Gained(base, tab.slots, me, {}, {})
    {
      hide Consistent;
      ghost var left := used;
      for i := 0 to maxfd
        invariant Consistent(tab) && Gained(base, tab.slots, me, left, {})
        invariant forall s :: s in left <==> s in used && i <= s
      {
        if i in used {
          ghost var b := tab.slots;
          LetGo(me, i);
          GainedLess(base, b, tab.slots, me, left, {}, {i}, {});
          left := left - {i};
          ghost var c := tab.slots;
          Gap(me);
          GainedThen(base, c, tab.slots, me, left, {});
        }
      }
      assert left == {};
    }

    /** Raise `select_waiting` on the wanted sockets, up to the first that is full or cannot be held. */
    method TellAll(me: Thread, maxfd: nat, want: Sets, ghost base: seq<Slot>, ghost used: set<nat>)
      returns (ok: bool, upto: nat)
      requires Consistent(tab) && Gained(base, tab.slots, me, used, {})
      modifies this
      ensures Consistent(tab) && Gained(base, tab.slots, me, used, WantedBelow(want, upto))
      ensures upto <= maxfd && (ok <==> upto == maxfd)
      ensures others == old(others) && now >= old(now)
      ensures old(Quiet()) ==> SamePending(old(tab.slots), tab.slots)
      ensures old(Quiet()) ==> (ok <==> AllThere(old(tab.slots), want, maxfd) && RoomToWait(old(tab.slots), want, maxfd))
    {
      hide Consistent;
      ok, upto := true, 0;
      assert WantedBelow(want, 0) == {};
      while upto < maxfd
        invariant upto <= maxfd
        invariant Consistent(tab) && Gained(base, tab.slots, me, used, WantedBelow(want, upto))
        invariant ok && others == old(others) && now >= old(now)
        invariant old(Quiet()) ==> SamePending(old(tab.slots), tab.slots)
        invariant old(Quiet()) ==> forall s :: upto <= s < |tab.slots| ==> tab.slots[s].waiting == old(tab.slots)[s].waiting
        invariant old(Quiet()) ==> AllThere(old(tab.slots), want, upto) && RoomToWait(old(tab.slots), want, upto)
      {
        if want.Wants(upto) {
          ok := TellOne(me, upto, base, used, WantedBelow(want, upto));
          if !ok {
            return;
          }
        }
        assert WantedBelow(want, upto + 1) == WantedBelow(want, upto) + if want.Wants(upto) then {upto} else {};
        upto := upto + 1;
      }
    }

    method TellOne(me: Thread, i: nat, ghost base: seq<Slot>, ghost used: set<nat>, ghost told: set<nat>) returns (ok: bool)
      requires Consistent(tab) && Gained(base, tab.slots, me, used, told) && i !in told
      modifies this
      ensures Consistent(tab) && Gained(base, tab.slots, me, used, if ok then told + {i} else told)
      ensures others == old(others) && now >= old(now)
      ensures old(Quiet()) ==> SamePending(old(tab.slots), tab.slots)
      ensures old(Quiet()) ==>
        forall s :: 0 <= s < |tab.slots| && s != i ==> tab.slots[s].waiting == old(tab.slots)[s].waiting
      ensures ok <==> There(old(tab.slots), i) && old(tab.slots)[i].waiting < WRAP - 1
    {
      hide Consistent, Gained, SamePending;
      ghost var a := tab.slots;
      ok := TryGet(me, i);
      if ok {
        ghost var b := tab.slots;
        Holds(a, b, me, {i}, {}, i);
        ok := Tell(me, i);
        ghost var more: set<nat> := if ok then {i} else {};
        GainedMore(a, b, tab.slots, me, {i}, {}, {}, more);
        assert {i} + {} == {i} && {} + more == more;
        ghost var c := tab.slots;
        PendingThen(a, b, c);
        Gap(me);
        GainedThen(a, c, tab.slots, me, {i}, more);
        ghost var d := tab.slots;
        Holds(a, d, me, {i}, more, i);
        LetGo(me, i);
        PendingThen(a, d, tab.slots);
        GainedLess(a, d, tab.slots, me, {i}, more, {i}, {});
        ghost var none: set<nat> := {};
        assert {i} - {i} == none && more - none == more;
        GainedMore(base, a, tab.slots, me, used, told, none, more);
        assert used + none == used && told + more == if ok then told + {i} else told;
      } else {
        GainedThen(base, a, tab.slots, me, used, told);
      }
      ghost var e := tab.slots;
      Gap(me);
      GainedThen(base, e, tab.slots, me, used, if ok then told + {i} else told);
    }

    /** Lower `select_waiting` again where it was raised. */
    method UntellAll(me: Thread, maxfd: nat, want: Sets, ghost base: seq<Slot>, ghost used: set<nat>)
      requires Consistent(tab) && Gained(base, tab.slots, me, used, WantedBelow(want, maxfd))
      modifies this
      ensures Consistent(tab) && Gained(base, tab.slots, me, used, {})
      ensures others == old(others) && now >= old(now)
      ensures old(Quiet()) ==> SamePending(old(tab.slots), tab.slots)
    {
      hide Consistent;
      ghost var left := WantedBelow(want, maxfd);
      for i := 0 to maxfd
        invariant Consistent(tab) && Gained(base, tab.slots, me, used, left)
        invariant others == old(others) && now >= old(now) && (old(Quiet()) ==> SamePending(old(tab.slots), tab.slots))
        invariant forall s :: s in left <==> s in WantedBelow(want, maxfd) && i <= s
      {
        if want.Wants(i) {
          assert i in left;
          ghost var b := tab.slots;
          Untell(me, i);
          GainedLess(base, b, tab.slots, me, used, left, {}, {i});
          left := left - {i};
          ghost var c := tab.slots;
          Gap(me);
          GainedThen(base, c, tab.slots, me, used, left);
        }
      }
      assert left == {};
    }

    /** `lwip_select_inc_sockets_used`. */
    method HoldAll(me: Thread, maxfd: nat, want: Sets) returns (used: set<nat>)
      requires Consistent(tab)
      modifies this
      ensures Consistent(tab) && Gained(old(tab.slots), tab.slots, me, used, {}) && forall s :: s in used ==> s < maxfd
      ensures forall s :: s in used ==> want.Wants(s)
      ensures others == old(others) && now >= old(now)
      ensures old(Quiet()) ==> SamePending(old(tab.slots), tab.slots) && SameWaiting(old(tab.slots), tab.slots)
      ensures old(Quiet()) ==> forall i: nat :: i < maxfd && want.Wants(i) && There(old(tab.slots), i) ==> i in used
    {
      hide Consistent, Gained;
      ghost var a, none: set<nat> := tab.slots, {};
      var used1 := HoldSet(me, maxfd, want.read, {});
      assert used1 - none == used1;
      ghost var b := tab.slots;
      var used2 := HoldSet(me, maxfd, want.write, used1);
      GainedMore(a, b, tab.slots, me, used1, none, used2 - used1, none);
      assert used1 + (used2 - used1) == used2 && none + none == none;
      ghost var c := tab.slots;
      used := HoldSet(me, maxfd, want.except, used2);
      GainedMore(a, c, tab.slots, me, used2, none, used - used2, none);
      assert used2 + (used - used2) == used;
    }

    method ScanKeeping(me: Thread, maxfd: nat, want: Sets, scans: seq<Status>, from: nat, ghost base: seq<Slot>,
                       ghost used: set<nat>)
      returns (nready: int, upto: nat, found: Sets)
      requires Consistent(tab) && Gained(base, tab.slots, me, used, {})
      modifies this
      ensures Consistent(tab) && Gained(base, tab.slots, me, used, {}) && -1 <= nready
      ensures 0 <= nready ==> Scanned(want, maxfd, scans, from, upto, found, nready)
      ensures others == old(others) && now >= old(now)
      ensures old(Quiet()) ==> SamePending(old(tab.slots), tab.slots) && SameWaiting(old(tab.slots), tab.slots)
      ensures old(Quiet()) ==> (0 <= nready <==> AllThere(old(tab.slots), want, maxfd))
    {
      hide Consistent, Gained, Scanned;
      ghost var b := tab.slots;
      nready, upto, found := Scan(me, maxfd, want, scans, from);
      GainedThen(base, b, tab.slots, me, used, {});
    }

    /** The part of `lwip_select` between linking and unlinking its callback, and the last scan. */
    method Wait(me: Thread, maxfd: nat, want: Sets, env: Surroundings, from: nat, ghost base: seq<Slot>,
                ghost used: set<nat>)
      returns (nready: int, k: nat, found: Sets)
      requires Consistent(tab) && Gained(base, tab.slots, me, used, {})
      modifies this
      ensures Consistent(tab) && Gained(base, tab.slots, me, used, {}) && -1 <= nready
      ensures 0 <= nready ==>
        var n := CountWanted(want, maxfd);
        var last := if env.timedOut && NothingReady(want, maxfd, env.scans, from) then from else from + n;
        Scanned(want, maxfd, env.scans, last, k, found, nready)
      ensures old(Quiet()) ==>
        (0 <= nready <==> AllThere(old(tab.slots), want, maxfd) && RoomToWait(old(tab.slots), want, maxfd))
    {
      hide Consistent, Gained, Scanned, AllThere, RoomToWait, SamePending, NothingReady, CountWanted;
      ghost var s0 := tab.slots;
      var told, maxfdp2 := TellAll(me, maxfd, want, base, used);
      nready, k, found := if told then 0 else -1, from, want;
      if old(Quiet()) {
        StillThere(s0, tab.slots, want, maxfd);
      }
      var waited := false;
      ghost var b := tab.slots;
      if nready >= 0 {
        nready, k, found := Scan(me, maxfd, want, env.scans, k);
        if 0 <= nready {
          NothingFound(want, maxfd, env.scans, from, k, found, nready);
        }
        GainedThen(base, b, tab.slots, me, used, WantedBelow(want, maxfdp2));
        if nready == 0 {
          waited := true;
          ghost var c := tab.slots;
          Gap(me);
          GainedThen(base, c, tab.slots, me, used, WantedBelow(want, maxfdp2));
        }
      }
      ghost var s1 := tab.slots;
      UntellAll(me, maxfdp2, want, base, used);
      if old(Quiet()) && told {
        StillThere(b, s1, want, maxfd);
        StillThere(s1, tab.slots, want, maxfd);
      }
      if nready < 0 {
        return -1, k, want;
      }
      if !(waited && env.timedOut) {
        nready, k, found := ScanKeeping(me, maxfd, want, env.scans, k, base, used);
      }
    }

    /** `lwip_select`. On every way out the caller has the holds and announcements it had before; `found` is what its
        sets hold then. */
    method Select(me: Thread, maxfdp1: int, limit: nat, want: Sets, env: Surroundings) returns (ret: int, found: Sets)
      requires Consistent(tab)
      modifies this
      ensures Consistent(tab) && Gained(old(tab.slots), tab.slots, me, {}, {})
      ensures -1 <= ret && (maxfdp1 < 0 || maxfdp1 > limit ==> ret == -1) && (ret == -1 ==> found == want)
      ensures 0 <= ret ==> 0 <= maxfdp1
      // the answer is that of the first scan, if it finds something or is not to wait, of the second, if the wait times
      // out, and else of the scan after waking
      ensures 0 <= ret ==>
        var n := CountWanted(want, maxfdp1);
        var from := if env.noTime || !NothingReady(want, maxfdp1, env.scans, 0) then 0
                    else if env.timedOut && NothingReady(want, maxfdp1, env.scans, n) then n else 2 * n;
        Scanned(want, maxfdp1, env.scans, from, from + n, found, ret)
      // undisturbed, it fails exactly if a wanted socket is not there, or it would have to wait and cannot
      ensures old(Quiet()) && 0 <= maxfdp1 <= limit ==>
        (ret == -1 <==>
           || !AllThere(old(tab.slots), want, maxfdp1)
           || (&& NothingReady(want, maxfdp1, env.scans, 0) && !env.noTime
               && (env.noCallback || env.noSemaphore || !RoomToWait(old(tab.slots), want, maxfdp1))))
    {
      hide Consistent, Gained, Scanned, AllThere, RoomToWait, NothingReady, CountWanted;
      ghost var base := tab.slots;
      GainedSame(base, me);
      if maxfdp1 < 0 || maxfdp1 > limit {
        return -1, want;
      }
      var used := HoldAll(me, maxfdp1, want);
      ghost var held := tab.slots;
      if old(Quiet()) {
        StillThere(base, held, want, maxfdp1);
        StillRoom(base, held, want, maxfdp1);
      }
      var nready, k, ready := ScanKeeping(me, maxfdp1, want, env.scans, 0, base, used);
      if old(Quiet()) {
        StillThere(held, tab.slots, want, maxfdp1);
        StillRoom(held, tab.slots, want, maxfdp1);
      }
      if 0 <= nready {
        NothingFound(want, maxfdp1, env.scans, 0, k, ready, nready);
      }
      if nready < 0 {
        ReleaseSet(me, maxfdp1, used, base);
        return -1, want;
      }
      if nready == 0 && !env.noTime {
        if env.noCallback || env.noSemaphore {
          ReleaseSet(me, maxfdp1, used, base);
          return -1, want;
        }
        nready, k, ready := Wait(me, maxfdp1, want, env, k, base, used);
        if 0 <= nready {
          ScannedEnds(want, maxfdp1, env.scans, k, ready, nready);
        }
        if nready < 0 {
          ReleaseSet(me, maxfdp1, used, base);
          return -1, want;
        }
      }
      ReleaseSet(me, maxfdp1, used, base);
      return nready, ready;
    }
  }
}
