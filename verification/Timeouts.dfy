/** Due times in a 32-bit millisecond clock that wraps around, and lists sorted by them. */
module Timeouts {
  const TWO32: nat := 0x1_0000_0000
  const HALF: nat := 0x8000_0000
  const MAX_TIMEOUT: nat := 0x7FFF_FFFF

  type Time = t: int | 0 <= t < TWO32 witness 0

  /** Unsigned subtraction and addition in 32 bits. */
  function Sub(a: Time, b: Time): Time {
    if a >= b then a - b else a - b + TWO32
  }

  function Add(a: Time, b: Time): Time {
    if a + b < TWO32 then a + b else a + b - TWO32
  }

  /** TIME_LESS_THAN. */
  predicate Less(t: Time, c: Time) {
    Sub(t, c) > MAX_TIMEOUT
  }

  /** It is antisymmetric except for times that are half the clock apart. */
  lemma LessOneWay(a: Time, b: Time)
    ensures !(Less(a, b) && Less(b, a)) <==> Sub(a, b) != HALF
    ensures a != b ==> Less(a, b) || Less(b, a)
  {
  }

  /** Within half the clock from `base` on, it is the order of the distances from `base`. */
  lemma LessInWindow(base: Time, a: Time, b: Time)
    requires Sub(a, base) < HALF && Sub(b, base) < HALF
    ensures Less(a, b) <==> Sub(a, base) < Sub(b, base)
  {
  }

  lemma Later(base: Time, t: Time, n: Time)
    requires Sub(t, base) + n < TWO32
    ensures Sub(Add(t, n), base) == Sub(t, base) + n
  {
  }

  /** A callback first does `acts` and then re-arms itself: from its due time, as `lwip_cyclic_timer`, or, if
      `again` is positive, from the current time. */
  datatype Handler = Cyclic(id: nat, interval: Time, acts: seq<Act>) | Shot(id: nat, again: Time, acts: seq<Act>)

  /** A callback may set any timer with `sys_timeout` and remove any with `sys_untimeout`. */
  datatype Act = Arm(delay: Time, handler: Handler) | Disarm(handler: Handler)

  datatype Timer = Timer(time: Time, handler: Handler)

  ghost predicate InWindow(base: Time, list: seq<Timer>) {
    forall i :: 0 <= i < |list| ==> Sub(list[i].time, base) < HALF
  }

  ghost predicate Sorted(base: Time, list: seq<Timer>) {
    forall i, j :: 0 <= i < j < |list| ==> Sub(list[i].time, base) <= Sub(list[j].time, base)
  }

  // ---------------------------------------------------------------- insertion

  /** The place behind all that are not later. */
  function Place(list: seq<Timer>, time: Time): (k: nat)
    ensures k <= |list|
    ensures forall j :: 0 <= j < k ==> !Less(time, list[j].time)
    ensures k < |list| ==> Less(time, list[k].time)
  {
    if list == [] || Less(time, list[0].time) then 0 else 1 + Place(list[1..], time)
  }

  function Inserted(list: seq<Timer>, t: Timer): (r: seq<Timer>)
    ensures |r| == |list| + 1
  {
    var k := Place(list, t.time);
    list[..k] + [t] + list[k..]
  }

  lemma {:induction false} PlaceIs(list: seq<Timer>, time: Time, k: nat)
    requires k <= |list| && forall j :: 0 <= j < k ==> !Less(time, list[j].time)
    requires k < |list| ==> Less(time, list[k].time)
    ensures Place(list, time) == k
  {
    if k > 0 {
      assert !Less(time, list[0].time);
      PlaceIs(list[1..], time, k - 1);
    }
  }

  lemma InsertedAt(list: seq<Timer>, t: Timer, i: nat)
    requires i <= |list|
    ensures var k := Place(list, t.time);
      Inserted(list, t)[i] == if i < k then list[i] else if i == k then t else list[i - 1]
  {
  }

  /** In a window, insertion keeps the order, and puts a timer behind those that are due at the same time. */
  lemma InsertedSorted(base: Time, list: seq<Timer>, t: Timer)
    requires InWindow(base, list) && Sorted(base, list) && Sub(t.time, base) < HALF
    ensures InWindow(base, Inserted(list, t)) && Sorted(base, Inserted(list, t))
    ensures forall j :: 0 <= j < |list| ==> (j < Place(list, t.time) <==> Sub(list[j].time, base) <= Sub(t.time, base))
  {
    hide Sub, Less, Place, Inserted;
    var k, r := Place(list, t.time), Inserted(list, t);
    forall j | 0 <= j < |list|
      ensures j < k <==> Sub(list[j].time, base) <= Sub(t.time, base)
    {
      LessInWindow(base, t.time, list[j].time);
      if k <= j {
        LessInWindow(base, t.time, list[k].time);
        assert k < j ==> Sub(list[k].time, base) <= Sub(list[j].time, base);
      }
    }
    forall i | 0 <= i < |r|
      ensures Sub(r[i].time, base) < HALF
    {
      InsertedAt(list, t, i);
    }
    forall i, j | 0 <= i < j < |r|
      ensures Sub(r[i].time, base) <= Sub(r[j].time, base)
    {
      InsertedAt(list, t, i);
      InsertedAt(list, t, j);
      if k < j && i != k {
        var m := if i < k then i else i - 1;
        assert m == j - 1 || Sub(list[m].time, base) <= Sub(list[j - 1].time, base);
      }
    }
  }

  // ---------------------------------------------------------------- removal and restart

  /** Without the first timer of `h`. */
  function Removed(list: seq<Timer>, h: Handler): seq<Timer> {
    if list == [] then []
    else if list[0].handler == h then list[1..]
    else [list[0]] + Removed(list[1..], h)
  }

  lemma {:induction false} RemovedIs(list: seq<Timer>, h: Handler, k: nat)
    requires k <= |list| && forall j :: 0 <= j < k ==> list[j].handler != h
    requires k < |list| ==> list[k].handler == h
    ensures Removed(list, h) == if k < |list| then list[..k] + list[k + 1..] else list
    decreases |list|
  {
    if k > 0 {
      assert list[0].handler != h;
      RemovedIs(list[1..], h, k - 1);
      assert list == [list[0]] + list[1..];
      if k < |list| {
        assert [list[0]] + (list[1..][..k - 1] + list[1..][k..]) == list[..k] + list[k + 1..];
      }
    }
  }

  /** Removing a timer keeps the order. */
  lemma {:induction false} RemovedSorted(base: Time, list: seq<Timer>, h: Handler)
    requires InWindow(base, list) && Sorted(base, list)
    ensures InWindow(base, Removed(list, h)) && Sorted(base, Removed(list, h))
    ensures forall i :: 0 <= i < |Removed(list, h)| ==> exists j :: 0 <= j < |list| && list[j] == Removed(list, h)[i]
    decreases |list|
  {
    hide Sub;
    if list != [] && list[0].handler != h {
      RemovedSorted(base, list[1..], h);
    }
  }

  /** Removing undoes setting, if the callback was not set already. */
  lemma {:induction false} RemovedUndoesInserted(list: seq<Timer>, t: Timer)
    requires forall j :: 0 <= j < |list| ==> list[j].handler != t.handler
    ensures Removed(Inserted(list, t), t.handler) == list
  {
    var k, r := Place(list, t.time), Inserted(list, t);
    hide Place;
    assert r[..k] == list[..k] && r[k] == t && r[k + 1..] == list[k..];
    RemovedIs(r, t.handler, k);
  }

  /** Moving all due times so that the first is due at `now`. */
  function Restarted(list: seq<Timer>, now: Time): (r: seq<Timer>)
    ensures |r| == |list|
  {
    seq(|list|, i requires 0 <= i < |list| => list[i].(time := Add(Sub(list[i].time, list[0].time), now)))
  }

  lemma RestartedOne(base: Time, first: Time, t: Time, now: Time)
    requires Sub(first, base) <= Sub(t, base) < HALF
    ensures Sub(Add(Sub(t, first), now), now) == Sub(t, base) - Sub(first, base)
  {
  }

  /** It keeps the order and all distances. */
  lemma RestartedSorted(base: Time, list: seq<Timer>, now: Time)
    requires InWindow(base, list) && Sorted(base, list) && list != []
    ensures InWindow(now, Restarted(list, now)) && Sorted(now, Restarted(list, now))
    ensures forall i :: 0 <= i < |list| ==>
      Sub(Restarted(list, now)[i].time, now) == Sub(list[i].time, base) - Sub(list[0].time, base)
  {
    forall i | 0 <= i < |list|
      ensures Sub(Restarted(list, now)[i].time, now) == Sub(list[i].time, base) - Sub(list[0].time, base)
    {
      RestartedOne(base, list[0].time, list[i].time, now);
    }
    hide Sub, Add;
  }

  // ---------------------------------------------------------------- how often a timer may fire

  datatype Choice = All | Only(handler: Handler)

  predicate Chosen(c: Choice, h: Handler) {
    c.All? || c.handler == h
  }

  /** How often a timer may still fire in a call that began at `now`. */
  function Weight(base: Time, now: Time, t: Time): (w: nat)
    ensures w <= 2
  {
    if Sub(t, base) > Sub(now, base) then 0 else if Sub(t, base) == Sub(now, base) then 1 else 2
  }

  /** How many callbacks of the choice run if one of `h` does: itself, and those that it and they set for at once. */
  function Burst(h: Handler, c: Choice): nat
    decreases h, |h.acts| + 1
  {
    (if Chosen(c, h) then 1 else 0) + BurstBy(h, |h.acts|, c)
  }

  /** Those set for at once by the first `n` acts. */
  function BurstBy(h: Handler, n: nat, c: Choice): nat
    requires n <= |h.acts|
    decreases h, n
  {
    if n == 0 then 0
    else
      var a := h.acts[n - 1];
      BurstBy(h, n - 1, c) + if a.Arm? && a.delay == 0 then Burst(a.handler, c) else 0
  }

  /** A callback that sets others only for later runs alone. */
  lemma {:induction false} LaterRunsAlone(h: Handler, n: nat, c: Choice)
    requires n <= |h.acts| && forall i :: 0 <= i < n && h.acts[i].Arm? ==> h.acts[i].delay > 0
    ensures BurstBy(h, n, c) == 0
    decreases n
  {
    if n > 0 {
      LaterRunsAlone(h, n - 1, c);
    }
  }

  /** What is added up over a list: its entries, those that have expired, how many callbacks they can run each time, or
      in all. */
  datatype Measure = Entries | Expired(base: Time, now: Time) | Bursts | Uses(base: Time, now: Time)

  function UnitsOf(m: Measure, t: Timer, c: Choice): nat {
    match m
    case Entries => if Chosen(c, t.handler) then 1 else 0
    case Expired(base, now) => if Chosen(c, t.handler) && Weight(base, now, t.time) > 0 then 1 else 0
    case Bursts => Burst(t.handler, c)
    case Uses(base, now) => Often(Weight(base, now, t.time), Burst(t.handler, c))
  }

  /** w * b. */
  function Often(w: nat, b: nat): nat {
    if w == 0 then 0 else if w == 1 then b else 2 * b
  }

  function Sum(m: Measure, list: seq<Timer>, c: Choice): nat {
    if list == [] then 0 else UnitsOf(m, list[0], c) + Sum(m, list[1..], c)
  }

  /** No entry runs its callbacks more than twice. */
  lemma {:induction false} AtMostTwice(base: Time, now: Time, list: seq<Timer>, c: Choice)
    ensures Sum(Uses(base, now), list, c) <= 2 * Sum(Bursts, list, c)
  {
    hide Burst, Weight;
    if list != [] {
      AtMostTwice(base, now, list[1..], c);
    }
  }

  /** Where callbacks set others only for later, that is twice per entry. */
  lemma {:induction false} BurstsAreEntries(list: seq<Timer>, c: Choice)
    requires forall i, j :: 0 <= i < |list| && 0 <= j < |list[i].handler.acts| && list[i].handler.acts[j].Arm? ==>
               list[i].handler.acts[j].delay > 0
    ensures Sum(Bursts, list, c) == Sum(Entries, list, c)
  {
    if list != [] {
      LaterRunsAlone(list[0].handler, |list[0].handler.acts|, c);
      hide BurstBy;
      BurstsAreEntries(list[1..], c);
    }
  }

  lemma {:induction false} SumConcat(m: Measure, a: seq<Timer>, b: seq<Timer>, c: Choice)
    ensures Sum(m, a + b, c) == Sum(m, a, c) + Sum(m, b, c)
  {
    hide UnitsOf;
    if a == [] {
      assert a + b == b;
    } else {
      assert (a + b)[1..] == a[1..] + b;
      SumConcat(m, a[1..], b, c);
    }
  }

  lemma SumCons(m: Measure, t: Timer, list: seq<Timer>, c: Choice)
    ensures Sum(m, [t] + list, c) == UnitsOf(m, t, c) + Sum(m, list, c)
  {
    assert ([t] + list)[1..] == list;
  }

  lemma SumInserted(m: Measure, list: seq<Timer>, t: Timer, c: Choice)
    ensures Sum(m, Inserted(list, t), c) == Sum(m, list, c) + UnitsOf(m, t, c)
  {
    var k := Place(list, t.time);
    var a, b := list[..k], list[k..];
    assert list == a + b && Inserted(list, t) == a + ([t] + b);
    hide Sum, UnitsOf, Inserted, Place;
    SumConcat(m, a, b, c);
    SumConcat(m, a, [t] + b, c);
    SumCons(m, t, b, c);
  }

  /** The time for which a cyclic timer that was due at `due` is set again at `clock`. */
  function NextDue(due: Time, interval: Time, clock: Time): Time {
    var next := Add(due, interval);
    if Less(next, clock) then Add(clock, interval) else next
  }

  /** It is one interval behind `due`, or behind the clock if that has passed already. So it is never earlier than the
      clock, and it is later than both `due` and, except when a timer from before the call falls on it exactly, the start
      of the call. */
  lemma NextDueWeight(base: Time, now: Time, due: Time, interval: Time, clock: Time)
    requires interval > 0 && Sub(due, base) <= Sub(now, base) <= Sub(clock, base)
    requires Sub(clock, base) + interval < HALF
    ensures var next := NextDue(due, interval, clock);
      && Sub(next, base) == (if Sub(due, base) + interval < Sub(clock, base) then Sub(clock, base) else Sub(due, base)) + interval
      && Sub(due, base) < Sub(next, base) < HALF && Sub(clock, base) <= Sub(next, base)
      && Weight(base, now, next) < Weight(base, now, due)
  {
    Later(base, due, interval);
    Later(base, clock, interval);
    LessInWindow(base, Add(due, interval), clock);
    hide Sub, Add, Less;
  }

  /** When a cyclic timer is due that was called back as often as there are clocks, at these times. */
  function DueAfter(due: Time, interval: Time, clocks: seq<Time>): Time {
    if clocks == [] then due
    else NextDue(DueAfter(due, interval, clocks[..|clocks| - 1]), interval, clocks[|clocks| - 1])
  }

  /** A cyclic timer does not drift: as long as no callback returns after the next due time, the due times lie exactly one
      interval apart, however late the callbacks are. */
  lemma {:induction false} NoDrift(base: Time, due: Time, interval: Time, clocks: seq<Time>)
    requires interval > 0 && Sub(due, base) + |clocks| * interval < HALF
    requires forall i :: 0 <= i < |clocks| ==> Sub(clocks[i], base) <= Sub(due, base) + (i + 1) * interval
    ensures Sub(DueAfter(due, interval, clocks), base) == Sub(due, base) + |clocks| * interval
    decreases |clocks|
  {
    hide Less;
    if clocks != [] {
      var n := |clocks| - 1;
      assert n * interval + interval == |clocks| * interval && n * interval >= 0;
      NoDrift(base, due, interval, clocks[..n]);
      var last := DueAfter(due, interval, clocks[..n]);
      NextDueIs(base, last, interval, clocks[n]);
    }
  }

  lemma NextDueIs(base: Time, due: Time, interval: Time, clock: Time)
    requires Sub(due, base) + interval < HALF && Sub(clock, base) <= Sub(due, base) + interval
    ensures Sub(NextDue(due, interval, clock), base) == Sub(due, base) + interval
  {
    Later(base, due, interval);
    LessInWindow(base, Add(due, interval), clock);
    hide Sub, Add, Less;
  }
}
