/** The list of timeouts and the functions that work on it in place. */
module TimerList {
  import opened Timeouts
  import opened TimerQueue

  function Total(delays: seq<Time>): nat {
    if delays == [] then 0 else delays[0] + Total(delays[1..])
  }

  /** What holds of a call of `sys_check_timeouts` between two callbacks. */
  ghost predicate FiredWell(r: Run) {
    && r.out == [] && r.done == 0 && r.asked == Asked(r.fired) && Pooled(r)
    && Sorted(r.base, r.fired)
    && (forall i :: 0 <= i < |r.fired| ==> Sub(r.fired[i].time, r.base) <= Sub(r.now, r.base))
    && (forall i :: 0 <= i < |r.fired| ==> NoneBefore(r.base, r.queue.list, r.fired[i].time))
    && (forall c :: Kept(r, c))
  }

  ghost function Begun(base: Time, now: Time, q: Queue): Run {
    Run(base, now, q.list, q.idle, q, [], [], 0, [])
  }

  lemma FiredNone(base: Time, now: Time, q: Queue)
    requires q.disarmed == [] && q.lost == []
    ensures FiredWell(Begun(base, now, q))
  {
    forall c
      ensures Kept(Begun(base, now, q), c)
    {
      assert Sum(Entries, [], c) == 0;
      assert Sum(Uses(base, now), [], c) == 0;
    }
  }

  lemma DelayOne(delays: seq<Time>, i: nat, clock: Time, base: Time, most: nat)
    requires i <= |delays| && Sub(clock, base) + Total(delays[i..]) + most < HALF
    ensures var d: Time := if i < |delays| then delays[i] else 0;
      && Sub(Add(clock, d), base) == Sub(clock, base) + d
      && Sub(Add(clock, d), base) + Total(delays[if i < |delays| then i + 1 else i..]) + most < HALF
  {
    if i < |delays| {
      assert delays[i..][1..] == delays[i + 1..];
      Later(base, clock, delays[i]);
    }
  }

  lemma HeadExpired(base: Time, now: Time, list: seq<Timer>, most: nat)
    requires Ordered(base, list, most) && list != [] && Sub(now, base) < HALF
    ensures !Less(now, list[0].time) <==> Sub(list[0].time, base) <= Sub(now, base)
  {
    LessInWindow(base, now, list[0].time);
  }

  lemma HeadTame(base: Time, list: seq<Timer>, most: nat)
    requires Ordered(base, list, most) && list != []
    ensures TameHandler(list[0].handler, most)
  {
  }

  lemma SourcedNone(base: Time, list: seq<Timer>, clock: Time)
    ensures Sourced(base, list, list, [], clock, clock)
  {
  }

  /** One more timer has fired. */
  lemma FiredStep(r: Run, clock: Time, most: nat)
    requires var list := r.queue.list;
      list != [] && Ordered(r.base, list, most) && Sub(list[0].time, r.base) <= Sub(r.now, r.base) <= Sub(clock, r.base)
    requires FiredWell(r) && Sub(clock, r.base) + most < HALF
    ensures FiredWell(Fire(r, clock)) && Ordered(r.base, Fire(r, clock).queue.list, most)
    ensures Sum(Entries, Fire(r, clock).fired, All) == Sum(Entries, r.fired, All) + 1
  {
    var t := r.queue.list[0];
    assert TameHandler(t.handler, most);
    hide Sub, Sum, Rearmed, Ordered, UnitsOf, Kept, NoneBefore, Pooled, Fire, TameHandler, Asked;
    var s := Fire(r, clock);
    FireIs(r, clock);
    FireOrdered(r, clock, most);
    FirePooled(r, clock);
    SumSnoc(Entries, r.fired, t, All);
    ExpiredUnits(r.base, r.now, t, All);
    forall c
      ensures Kept(s, c)
    {
      FireKept(r, clock, most, c);
    }
    forall i | 0 <= i < |r.fired|
      ensures Sub(r.fired[i].time, r.base) <= Sub(t.time, r.base) && NoneBefore(r.base, s.queue.list, r.fired[i].time)
    {
      NoneBeforeOn(r.base, r.queue.list, s.queue.list, r.fired[i].time);
    }
  }

  lemma NoneBeforeOn(base: Time, list: seq<Timer>, after: seq<Timer>, time: Time)
    requires list != [] && NoneBefore(base, list, time) && NoneBefore(base, after, list[0].time)
    ensures Sub(time, base) <= Sub(list[0].time, base) && NoneBefore(base, after, time)
  {
  }

  /** There are never more than two per entry. */
  lemma FiredBound(r: Run)
    requires FiredWell(r)
    ensures Sum(Entries, r.fired, All) <= Sum(Uses(r.base, r.now), r.was, All)
  {
    assert Kept(r, All);
    assert Sum(Entries, [], All) == 0;
  }

  lemma {:induction false} NoneExpired(base: Time, now: Time, list: seq<Timer>, c: Choice)
    requires forall i :: 0 <= i < |list| ==> Sub(list[i].time, base) > Sub(now, base)
    ensures Sum(Expired(base, now), list, c) == 0
  {
    hide Sub;
    if list != [] {
      NoneExpired(base, now, list[1..], c);
    }
  }

  /** What becomes of the timers of one callback, or of all, in a call that began at `now` with the list `was`. */
  ghost predicate Accounted(base: Time, now: Time, was: seq<Timer>, q: Queue, fired: seq<Timer>, c: Choice) {
    // those that were due have been called, unless a callback has removed them
    && Sum(Expired(base, now), was, c) <= Sum(Entries, fired, c) + Sum(Entries, q.disarmed, c)
    && Sum(Entries, q.disarmed, c) <= Disarms(Asked(fired), c)
    // no entry, with the callbacks that it sets for at once, more than twice
    && Sum(Entries, fired, c) <= 2 * Sum(Bursts, was, c)
    // cyclic timers stay set, and others come and go only as callbacks ask for
    && (c.Only? && c.handler.Cyclic? ==>
          Sum(Entries, q.list, c) + Sum(Entries, q.disarmed, c) + Sum(Entries, q.lost, c)
            == Sum(Entries, was, c) + Arms(Asked(fired), c))
  }

  lemma AllFired(r: Run, c: Choice)
    requires Kept(r, c) && r.out == [] && r.asked == Asked(r.fired)
    requires forall i :: 0 <= i < |r.queue.list| ==> Sub(r.queue.list[i].time, r.base) > Sub(r.now, r.base)
    ensures Accounted(r.base, r.now, r.was, r.queue, r.fired, c)
  {
    assert Sum(Entries, [], c) == 0;
    hide Sum, Sub;
    NoneExpired(r.base, r.now, r.queue.list, c);
    AtMostTwice(r.base, r.now, r.was, c);
  }

  /** At the end no expired timer is left. */
  lemma FiredAll(r: Run, most: nat)
    requires FiredWell(r) && Ordered(r.base, r.queue.list, most) && Sub(r.now, r.base) < HALF
    requires r.queue.list == [] || Less(r.now, r.queue.list[0].time)
    ensures forall i :: 0 <= i < |r.queue.list| ==> Sub(r.queue.list[i].time, r.base) > Sub(r.now, r.base)
    ensures forall c :: Accounted(r.base, r.now, r.was, r.queue, r.fired, c)
  {
    if r.queue.list != [] {
      HeadExpired(r.base, r.now, r.queue.list, most);
    }
    forall c
      ensures Accounted(r.base, r.now, r.was, r.queue, r.fired, c)
    {
      assert Kept(r, c);
      AllFired(r, c);
    }
  }

  lemma FireOn(r: Run, clock: Time)
    requires FiredWell(r) && r.queue.list != []
    ensures var q, t, s := r.queue, r.queue.list[0], Fire(r, clock);
      && s.queue == Rearmed(q.(list := q.list[1..], idle := q.idle + 1), t.time, t.handler, clock)
      && s.fired == r.fired + [t] && s.base == r.base && s.now == r.now && s.was == r.was && s.wasIdle == r.wasIdle
  {
    hide Rearmed, Kept, Fire;
    FireIs(r, clock);
  }

  lemma FiredSo(r: Run)
    requires FiredWell(r)
    ensures Sorted(r.base, r.fired) && forall i :: 0 <= i < |r.fired| ==> Sub(r.fired[i].time, r.base) <= Sub(r.now, r.base)
    ensures |r.queue.list| + r.queue.idle == |r.was| + r.wasIdle
    ensures r.queue.lost != [] ==> Arms(Asked(r.fired), All) > r.wasIdle
  {
  }

  class Timers {
    var list: seq<Timer>
    /** Free elements of the pool MEMP_SYS_TIMEOUT. */
    var idle: nat
    /** `current_timeout_due_time`. */
    var due: Time
    /** What `sys_now` returns. */
    var clock: Time
    /** Since `sys_check_timeouts` was called: the timers that have been removed, and those that could not be set. */
    ghost var disarmed: seq<Timer>
    ghost var lost: seq<Timer>

    ghost function State(): Queue
      reads this
    {
      Queue(list, idle, disarmed, lost)
    }

    /** `sys_timeout_abs`. */
    method SetAbs(time: Time, handler: Handler)
      modifies `list, `idle, `lost
      ensures State() == SetIn(old(State()), Timer(time, handler))
    {
      if idle == 0 {
        lost := lost + [Timer(time, handler)];
        return;
      }
      idle := idle - 1;
      var t := Timer(time, handler);
      if list == [] {
        list := [t];
        return;
      }
      if Less(time, list[0].time) {
        PlaceIs(list, time, 0);
        list := [t] + list;
      } else {
        var i := 0;
        while i + 1 < |list| && !Less(time, list[i + 1].time)
          invariant 0 <= i < |list| && forall j :: 0 <= j <= i ==> !Less(time, list[j].time)
        {
          i := i + 1;
        }
        PlaceIs(list, time, i + 1);
        list := list[..i + 1] + [t] + list[i + 1..];
      }
    }

    /** `sys_timeout`. */
    method Set(msecs: Time, handler: Handler)
      modifies `list, `idle, `lost
      ensures State() == SetIn(old(State()), Timer(Add(clock, msecs), handler))
    {
      SetAbs(Add(clock, msecs), handler);
    }

    /** `sys_untimeout`. */
    method Unset(handler: Handler)
      modifies `list, `idle, `disarmed
      ensures State() == UnsetIn(old(State()), handler)
      ensures list == Removed(old(list), handler) && |list| + idle == |old(list)| + old(idle)
    {
      hide Removed;
      var k := 0;
      while k < |list| && list[k].handler != handler
        invariant 0 <= k <= |list| && forall j :: 0 <= j < k ==> list[j].handler != handler
      {
        k := k + 1;
      }
      RemovedIs(list, handler, k);
      if k < |list| {
        disarmed := disarmed + [list[k]];
        list := list[..k] + list[k + 1..];
        idle := idle + 1;
      }
    }

    /** `sys_restart_timeouts`. */
    method Restart()
      modifies `list
      ensures list == Restarted(old(list), clock)
    {
      if list == [] {
        return;
      }
      var base, i := list[0].time, 0;
      while i < |list|
        invariant 0 <= i <= |list| == |old(list)|
        invariant forall j :: 0 <= j < i ==> list[j] == Restarted(old(list), clock)[j]
        invariant forall j :: i <= j < |list| ==> list[j] == old(list)[j]
      {
        list := list[i := list[i].(time := Add(Sub(list[i].time, base), clock))];
        i := i + 1;
      }
    }

    /** `sys_timeouts_sleeptime`: how long until the first timer is due. */
    method SleepTime(ghost base: Time) returns (r: Time)
      ensures list == [] ==> r == 0xFFFF_FFFF
      ensures list != [] && Sub(list[0].time, base) < HALF && Sub(clock, base) < HALF ==>
        r == if Sub(list[0].time, base) <= Sub(clock, base) then 0 else Sub(list[0].time, base) - Sub(clock, base)
    {
      if list == [] {
        return 0xFFFF_FFFF;
      }
      if Less(list[0].time, clock) {
        return 0;
      }
      return Sub(list[0].time, clock);
    }

    method Perform(acts: seq<Act>)
      modifies `list, `idle, `disarmed, `lost
      ensures State() == DoneAll(old(State()), acts, clock)
    {
      hide Removed, Inserted, First;
      var i := 0;
      while i < |acts|
        invariant 0 <= i <= |acts| && clock == old(clock) && State() == DoneAll(old(State()), acts[..i], clock)
      {
        assert acts[..i + 1][..i] == acts[..i];
        match acts[i] {
          case Arm(msecs, h) => Set(msecs, h);
          case Disarm(h) => Unset(h);
        }
        i := i + 1;
      }
      assert acts[..i] == acts;
    }

    /** A callback that takes `delay` milliseconds before it calls `sys_now`. */
    method Call(h: Handler, delay: Time)
      modifies `list, `idle, `clock, `disarmed, `lost
      ensures clock == Add(old(clock), delay) && State() == Rearmed(old(State()), due, h, clock)
    {
      clock := Add(clock, delay);
      Perform(h.acts);
      match h
      case Cyclic(_, interval, _) =>
        var now := clock;
        var next := Add(due, interval);
        if Less(next, now) {
          SetAbs(Add(now, interval), h);
        } else {
          SetAbs(next, h);
        }
      case Shot(_, again, _) =>
        if again != 0 {
          Set(again, h);
        }
    }

    /** `sys_check_timeouts`; `delays` says how long the callbacks take. */
    method Check(delays: seq<Time>, ghost base: Time, ghost most: nat) returns (fired: seq<Timer>)
      requires Ordered(base, list, most) && Sub(clock, base) + Total(delays) + most < HALF
      modifies this
      ensures Ordered(base, list, most) && |list| + idle == |old(list)| + old(idle)
      // nothing that was due when the call began is pending any more
      ensures forall i :: 0 <= i < |list| ==> Sub(list[i].time, base) > Sub(old(clock), base)
      ensures forall c :: Accounted(base, old(clock), old(list), State(), fired, c)
      // callbacks are called in the order of the due times, and none before its time
      ensures Sorted(base, fired)
      ensures forall i :: 0 <= i < |fired| ==> Sub(fired[i].time, base) <= Sub(old(clock), base)
      // no timer is lost unless the callbacks set more timers than the pool had elements
      ensures lost != [] ==> Arms(Asked(fired), All) > old(idle)
      // what is pending was so before, or a callback has set it, for the time that it asked for or for its next turn
      ensures Sourced(base, old(list), list, fired, old(clock), clock)
    {
      hide Sum, Ordered, Sub, Add, Less, NoneBefore, Rearmed, Sorted, FiredWell, Total, Pooled, Accounted, Asked, Arms,
        Sourced;
      fired, disarmed, lost := [], [], [];
      var now, i := clock, 0;
      ghost var run := Begun(base, now, State());
      FiredNone(base, now, State());
      assert Sourced(base, list, list, [], clock, clock) by {
        SourcedNone(base, list, clock);
      }
      assert delays[0..] == delays;
      while list != [] && !Less(now, list[0].time)
        invariant Ordered(base, list, most)
        invariant 0 <= i <= |delays| && Sub(now, base) <= Sub(clock, base)
        invariant Sub(clock, base) + Total(delays[i..]) + most < HALF
        invariant FiredWell(run) && run.queue == State() && run.fired == fired
        invariant Sourced(base, old(list), list, fired, now, clock)
        invariant run.base == base && run.now == now && run.was == old(list) && run.wasIdle == old(idle)
        decreases Sum(Uses(base, now), old(list), All) - Sum(Entries, fired, All)
      {
        var delay: Time := if i < |delays| then delays[i] else 0;
        DelayOne(delays, i, clock, base, most);
        i := if i < |delays| then i + 1 else i;
        var t := list[0];
        HeadExpired(base, now, list, most);
        HeadTame(base, list, most);
        SourcedStep(base, old(list), State(), fired, now, clock, Add(clock, delay), most);
        FiredStep(run, Add(clock, delay), most);
        FireOn(run, Add(clock, delay));
        run := Fire(run, Add(clock, delay));
        list := list[1..];
        due := t.time;
        idle := idle + 1;
        fired := fired + [t];
        Call(t.handler, delay);
        FiredBound(run);
      }
      FiredAll(run, most);
      FiredSo(run);
    }
  }
}
