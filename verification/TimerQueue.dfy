/** What the callbacks do to the list of timeouts, counted over one call of `sys_check_timeouts`. */
module TimerQueue {
  import opened Timeouts

  /** The list, the free elements of the pool MEMP_SYS_TIMEOUT, the timers that callbacks have removed, and those that
      could not be set because the pool was empty. */
  datatype Queue = Queue(list: seq<Timer>, idle: nat, disarmed: seq<Timer>, lost: seq<Timer>)

  function SetIn(q: Queue, t: Timer): Queue {
    if q.idle == 0 then q.(lost := q.lost + [t]) else q.(list := Inserted(q.list, t), idle := q.idle - 1)
  }

  /** Where the first timer of `h` is. */
  function First(list: seq<Timer>, h: Handler): (k: nat)
    ensures k <= |list| && (forall j :: 0 <= j < k ==> list[j].handler != h)
    ensures k < |list| ==> list[k].handler == h
  {
    if list == [] || list[0].handler == h then 0 else 1 + First(list[1..], h)
  }

  function UnsetIn(q: Queue, h: Handler): Queue {
    var k := First(q.list, h);
    if k == |q.list| then q
    else q.(list := Removed(q.list, h), idle := q.idle + 1, disarmed := q.disarmed + [q.list[k]])
  }

  function Done(q: Queue, a: Act, clock: Time): Queue {
    match a
    case Arm(delay, h) => SetIn(q, Timer(Add(clock, delay), h))
    case Disarm(h) => UnsetIn(q, h)
  }

  function DoneAll(q: Queue, acts: seq<Act>, clock: Time): Queue {
    if acts == [] then q else Done(DoneAll(q, acts[..|acts| - 1], clock), acts[|acts| - 1], clock)
  }

  function Again(q: Queue, due: Time, h: Handler, clock: Time): Queue {
    match h
    case Cyclic(_, interval, _) => SetIn(q, Timer(NextDue(due, interval, clock), h))
    case Shot(_, again, _) => if again == 0 then q else SetIn(q, Timer(Add(clock, again), h))
  }

  /** The queue after the callback of a timer that was due at `due`, called with `clock` as time of return. */
  function Rearmed(q: Queue, due: Time, h: Handler, clock: Time): Queue {
    Again(DoneAll(q, h.acts, clock), due, h, clock)
  }

  // ---------------------------------------------------------------- order

  /** Cyclic timers have positive intervals, and nothing is set for more than `most` ahead. */
  ghost predicate Tame(list: seq<Timer>, most: nat) {
    forall i :: 0 <= i < |list| ==> TameHandler(list[i].handler, most)
  }

  ghost predicate TameHandler(h: Handler, most: nat) {
    && (h.Cyclic? ==> 0 < h.interval <= most)
    && (h.Shot? ==> h.again <= most)
    && TameActs(h.acts, most)
  }

  ghost predicate TameActs(acts: seq<Act>, most: nat) {
    forall i :: 0 <= i < |acts| ==> TameAct(acts[i], most)
  }

  ghost predicate TameAct(a: Act, most: nat) {
    a.Arm? ==> a.delay <= most && TameHandler(a.handler, most)
  }

  ghost predicate Ordered(base: Time, list: seq<Timer>, most: nat) {
    InWindow(base, list) && Sorted(base, list) && Tame(list, most)
  }

  /** Nothing in the list is due before `time`. */
  ghost predicate NoneBefore(base: Time, list: seq<Timer>, time: Time) {
    forall i :: 0 <= i < |list| ==> Sub(time, base) <= Sub(list[i].time, base)
  }

  lemma TailOrdered(base: Time, list: seq<Timer>, most: nat)
    requires Ordered(base, list, most) && list != []
    ensures Ordered(base, list[1..], most) && NoneBefore(base, list[1..], list[0].time)
  {
    hide Sub;
  }

  lemma InsertedOrdered(base: Time, list: seq<Timer>, t: Timer, most: nat, due: Time)
    requires Ordered(base, list, most) && NoneBefore(base, list, due) && TameHandler(t.handler, most)
    requires Sub(due, base) <= Sub(t.time, base) < HALF
    ensures Ordered(base, Inserted(list, t), most) && NoneBefore(base, Inserted(list, t), due)
  {
    hide Sub, TameHandler, Inserted;
    InsertedSorted(base, list, t);
    forall i | 0 <= i < |Inserted(list, t)|
      ensures TameHandler(Inserted(list, t)[i].handler, most) && Sub(due, base) <= Sub(Inserted(list, t)[i].time, base)
    {
      InsertedAt(list, t, i);
    }
  }

  lemma RemovedOrdered(base: Time, list: seq<Timer>, h: Handler, most: nat, due: Time)
    requires Ordered(base, list, most) && NoneBefore(base, list, due)
    ensures Ordered(base, Removed(list, h), most) && NoneBefore(base, Removed(list, h), due)
  {
    hide Sub, TameHandler, Removed;
    RemovedSorted(base, list, h);
  }

  lemma SetOrdered(base: Time, q: Queue, t: Timer, most: nat, due: Time)
    requires Ordered(base, q.list, most) && NoneBefore(base, q.list, due) && TameHandler(t.handler, most)
    requires Sub(due, base) <= Sub(t.time, base) < HALF
    ensures Ordered(base, SetIn(q, t).list, most) && NoneBefore(base, SetIn(q, t).list, due)
  {
    InsertedOrdered(base, q.list, t, most, due);
  }

  lemma DoneOrdered(base: Time, q: Queue, a: Act, clock: Time, most: nat, due: Time)
    requires Ordered(base, q.list, most) && NoneBefore(base, q.list, due) && TameAct(a, most)
    requires Sub(due, base) <= Sub(clock, base) && Sub(clock, base) + most < HALF
    ensures var r := Done(q, a, clock); Ordered(base, r.list, most) && NoneBefore(base, r.list, due)
  {
    hide Ordered, NoneBefore, SetIn, Removed;
    match a
    case Arm(delay, h) =>
      Later(base, clock, delay);
      SetOrdered(base, q, Timer(Add(clock, delay), h), most, due);
    case Disarm(h) =>
      RemovedOrdered(base, q.list, h, most, due);
  }

  lemma {:induction false} DoneAllOrdered(base: Time, q: Queue, acts: seq<Act>, clock: Time, most: nat, due: Time)
    requires Ordered(base, q.list, most) && NoneBefore(base, q.list, due) && TameActs(acts, most)
    requires Sub(due, base) <= Sub(clock, base) && Sub(clock, base) + most < HALF
    ensures var r := DoneAll(q, acts, clock); Ordered(base, r.list, most) && NoneBefore(base, r.list, due)
  {
    hide Ordered, NoneBefore, Done, Sub, TameAct;
    if acts != [] {
      DoneAllOrdered(base, q, acts[..|acts| - 1], clock, most, due);
      DoneOrdered(base, DoneAll(q, acts[..|acts| - 1], clock), acts[|acts| - 1], clock, most, due);
    }
  }

  lemma AgainOrdered(base: Time, now: Time, q: Queue, due: Time, h: Handler, clock: Time, most: nat)
    requires Ordered(base, q.list, most) && NoneBefore(base, q.list, due) && TameHandler(h, most)
    requires Sub(due, base) <= Sub(now, base) <= Sub(clock, base) && Sub(clock, base) + most < HALF
    ensures var r := Again(q, due, h, clock); Ordered(base, r.list, most) && NoneBefore(base, r.list, due)
  {
    hide Ordered, NoneBefore, SetIn, NextDue;
    match h
    case Cyclic(_, interval, _) =>
      NextDueWeight(base, now, due, interval, clock);
      SetOrdered(base, q, Timer(NextDue(due, interval, clock), h), most, due);
    case Shot(_, again, _) =>
      if again != 0 {
        Later(base, clock, again);
        SetOrdered(base, q, Timer(Add(clock, again), h), most, due);
      }
  }

  // ---------------------------------------------------------------- a call of sys_check_timeouts so far

  /** A call that began at `now` with the list `was` and `wasIdle` free elements: the queue at this point, the timers
      that have fired, the one whose callback is running and how many of its acts are done, and what the callbacks have
      asked for. */
  datatype Run = Run(base: Time, now: Time, was: seq<Timer>, wasIdle: nat, queue: Queue, fired: seq<Timer>,
                     out: seq<Timer>, done: nat, asked: seq<Act>)

  /** How often the callbacks have set, or removed, a timer. */
  function Arms(acts: seq<Act>, c: Choice): nat {
    if acts == [] then 0
    else
      var a := acts[|acts| - 1];
      Arms(acts[..|acts| - 1], c) + if a.Arm? && Chosen(c, a.handler) then 1 else 0
  }

  function Disarms(acts: seq<Act>, c: Choice): nat {
    if acts == [] then 0
    else
      var a := acts[|acts| - 1];
      Disarms(acts[..|acts| - 1], c) + if a.Disarm? && Chosen(c, a.handler) then 1 else 0
  }

  lemma OneMoreAct(acts: seq<Act>, a: Act, c: Choice)
    ensures Arms(acts + [a], c) == Arms(acts, c) + if a.Arm? && Chosen(c, a.handler) then 1 else 0
    ensures Disarms(acts + [a], c) == Disarms(acts, c) + if a.Disarm? && Chosen(c, a.handler) then 1 else 0
  {
    assert (acts + [a])[..|acts|] == acts;
  }

  /** What all callbacks of `fired` ask for. */
  function Asked(fired: seq<Timer>): seq<Act> {
    if fired == [] then [] else Asked(fired[..|fired| - 1]) + fired[|fired| - 1].handler.acts
  }

  /** How many callbacks the one that is running, its remaining acts and its being set again can still bring about. */
  ghost function Rest(r: Run, c: Choice): int {
    if r.out == [] || r.done > |r.out[0].handler.acts| then 0
    else UnitsOf(Uses(r.base, r.now), r.out[0], c) - UnitsOf(Entries, r.out[0], c) - BurstBy(r.out[0].handler, r.done, c)
  }

  /** The accounts: how often timers may still fire, that the expired ones do not get lost, and where the cyclic timers
      are. */
  ghost predicate Kept(r: Run, c: Choice) {
    var uses, expired := Uses(r.base, r.now), Expired(r.base, r.now);
    && Sum(Entries, r.fired, c) + Sum(uses, r.queue.list, c) + Rest(r, c) <= Sum(uses, r.was, c)
    && Sum(expired, r.was, c)
         <= Sum(Entries, r.fired, c) + Sum(expired, r.queue.list, c) + Sum(Entries, r.queue.disarmed, c)
    && (c.Only? && c.handler.Cyclic? ==>
          Sum(Entries, r.queue.list, c) + Sum(Entries, r.out, c) + Sum(Entries, r.queue.disarmed, c)
            + Sum(Entries, r.queue.lost, c) == Sum(Entries, r.was, c) + Arms(r.asked, c))
    && Sum(Entries, r.queue.disarmed, c) <= Disarms(r.asked, c)
  }

  /** The pool: nothing is lost unless callbacks have set more timers than elements were free. */
  ghost predicate Pooled(r: Run) {
    && (r.queue.lost != [] ==> Arms(r.asked, All) > r.wasIdle)
    && r.queue.idle + Arms(r.asked, All) >= r.wasIdle + |r.out|
    && |r.queue.list| + r.queue.idle == |r.was| + r.wasIdle
  }

  lemma SumOne(m: Measure, t: Timer, c: Choice)
    ensures Sum(m, [t], c) == UnitsOf(m, t, c)
  {
  }

  lemma SumSnoc(m: Measure, list: seq<Timer>, t: Timer, c: Choice)
    ensures Sum(m, list + [t], c) == Sum(m, list, c) + UnitsOf(m, t, c)
  {
    SumConcat(m, list, [t], c);
    SumOne(m, t, c);
  }

  lemma SumRemoved(m: Measure, list: seq<Timer>, h: Handler, c: Choice)
    requires First(list, h) < |list|
    ensures Sum(m, list, c) == Sum(m, Removed(list, h), c) + UnitsOf(m, list[First(list, h)], c)
    ensures |Removed(list, h)| == |list| - 1
  {
    hide Sum, UnitsOf, Removed, First;
    var k := First(list, h);
    RemovedIs(list, h, k);
    var a, t, b := list[..k], list[k], list[k + 1..];
    Around(list, k);
    SumConcat(m, a, [t] + b, c);
    SumConcat(m, a, b, c);
    SumCons(m, t, b, c);
  }

  lemma Around(list: seq<Timer>, k: nat)
    requires k < |list|
    ensures list == list[..k] + ([list[k]] + list[k + 1..])
  {
  }

  /** A timer set for the time of the clock or later runs at most once, and not at all if it is later. */
  lemma LateUnits(base: Time, now: Time, t: Timer, later: bool, c: Choice)
    requires Sub(t.time, base) >= Sub(now, base) && (later ==> Sub(t.time, base) > Sub(now, base))
    ensures UnitsOf(Uses(base, now), t, c) <= if later then 0 else Burst(t.handler, c)
  {
    hide Burst;
  }

  lemma ExpiredUnits(base: Time, now: Time, t: Timer, c: Choice)
    ensures UnitsOf(Expired(base, now), t, c) <= UnitsOf(Entries, t, c) == if Chosen(c, t.handler) then 1 else 0
  {
  }

  // ---------------------------------------------------------------- taking the first timer off

  function Took(r: Run): Run
    requires r.queue.list != []
  {
    var q, t := r.queue, r.queue.list[0];
    r.(queue := q.(list := q.list[1..], idle := q.idle + 1), fired := r.fired + [t], out := [t], done := 0)
  }

  lemma TookKept(r: Run, c: Choice)
    requires r.queue.list != [] && r.out == [] && Kept(r, c)
    ensures Kept(Took(r), c)
  {
    var list, t := r.queue.list, r.queue.list[0];
    assert [t] + list[1..] == list;
    assert forall m :: Sum(m, [], c) == 0;
    assert BurstBy(t.handler, 0, c) == 0;
    hide Sum, UnitsOf, Arms, Disarms, BurstBy;
    SumCons(Uses(r.base, r.now), t, list[1..], c);
    SumCons(Expired(r.base, r.now), t, list[1..], c);
    SumCons(Entries, t, list[1..], c);
    SumOne(Entries, t, c);
    SumSnoc(Entries, r.fired, t, c);
    ExpiredUnits(r.base, r.now, t, c);
  }

  lemma TookPooled(r: Run)
    requires r.queue.list != [] && r.out == [] && Pooled(r)
    ensures Pooled(Took(r))
  {
    hide Arms;
  }

  // ---------------------------------------------------------------- what callbacks do to other timers

  /** The running callback has an act left. */
  predicate Acting(r: Run) {
    r.out != [] && r.done < |r.out[0].handler.acts|
  }

  function Next(r: Run): Act
    requires Acting(r)
  {
    r.out[0].handler.acts[r.done]
  }

  function Did(r: Run, clock: Time): Run
    requires Acting(r)
  {
    r.(queue := Done(r.queue, Next(r), clock), done := r.done + 1, asked := r.asked + [Next(r)])
  }

  lemma RestOn(r: Run, clock: Time, c: Choice)
    requires Acting(r)
    ensures Rest(r, c)
            == Rest(Did(r, clock), c) + if Next(r).Arm? && Next(r).delay == 0 then Burst(Next(r).handler, c) else 0
  {
    hide UnitsOf, Burst;
  }

  lemma ArmKept(r: Run, clock: Time, c: Choice)
    requires Acting(r) && Next(r).Arm? && Kept(r, c)
    requires Sub(Add(clock, Next(r).delay), r.base) >= Sub(r.now, r.base)
    requires Next(r).delay > 0 ==> Sub(Add(clock, Next(r).delay), r.base) > Sub(r.now, r.base)
    ensures Kept(Did(r, clock), c)
  {
    hide Sum, UnitsOf, Arms, Disarms, Inserted, Sub, Add, Rest, Burst;
    var a := Next(r);
    var t := Timer(Add(clock, a.delay), a.handler);
    RestOn(r, clock, c);
    LateUnits(r.base, r.now, t, a.delay > 0, c);
    ExpiredUnits(r.base, r.now, t, c);
    OneMoreAct(r.asked, a, c);
    if r.queue.idle == 0 {
      SumSnoc(Entries, r.queue.lost, t, c);
    } else {
      SumInserted(Uses(r.base, r.now), r.queue.list, t, c);
      SumInserted(Expired(r.base, r.now), r.queue.list, t, c);
      SumInserted(Entries, r.queue.list, t, c);
    }
  }

  lemma DisarmKept(r: Run, clock: Time, c: Choice)
    requires Acting(r) && Next(r).Disarm? && Kept(r, c)
    ensures Kept(Did(r, clock), c)
  {
    hide Sum, UnitsOf, Arms, Disarms, Removed, First, Rest;
    var a := Next(r);
    RestOn(r, clock, c);
    OneMoreAct(r.asked, a, c);
    var k := First(r.queue.list, a.handler);
    if k < |r.queue.list| {
      var t := r.queue.list[k];
      ExpiredUnits(r.base, r.now, t, c);
      SumRemoved(Uses(r.base, r.now), r.queue.list, a.handler, c);
      SumRemoved(Expired(r.base, r.now), r.queue.list, a.handler, c);
      SumRemoved(Entries, r.queue.list, a.handler, c);
      SumSnoc(Entries, r.queue.disarmed, t, c);
    }
  }

  lemma DidPooled(r: Run, clock: Time)
    requires Acting(r) && Pooled(r)
    ensures Pooled(Did(r, clock))
  {
    hide Arms, Disarms, Inserted, Removed, First;
    OneMoreAct(r.asked, Next(r), All);
    if Next(r).Disarm? && First(r.queue.list, Next(r).handler) < |r.queue.list| {
      SumRemoved(Entries, r.queue.list, Next(r).handler, All);
    }
  }

  /** The callback has just been called. */
  predicate Called(r: Run) {
    r.out != [] && r.done == 0
  }

  /** The first `n` acts of the running callback. */
  function DidAll(r: Run, n: nat, clock: Time): Run
    requires Called(r) && n <= |r.out[0].handler.acts|
  {
    var acts := r.out[0].handler.acts[..n];
    r.(queue := DoneAll(r.queue, acts, clock), done := n, asked := r.asked + acts)
  }

  lemma DidAllStep(r: Run, n: nat, clock: Time)
    requires Called(r) && 0 < n <= |r.out[0].handler.acts|
    ensures Acting(DidAll(r, n - 1, clock)) && DidAll(r, n, clock) == Did(DidAll(r, n - 1, clock), clock)
  {
    hide Done;
    var acts := r.out[0].handler.acts;
    assert acts[..n][..n - 1] == acts[..n - 1];
    assert r.asked + acts[..n] == r.asked + acts[..n - 1] + [acts[n - 1]];
  }

  lemma DidNone(r: Run, clock: Time)
    requires Called(r)
    ensures DidAll(r, 0, clock) == r
  {
    assert r.asked + r.out[0].handler.acts[..0] == r.asked;
  }

  lemma {:induction false} DidAllKept(r: Run, n: nat, clock: Time, most: nat, c: Choice)
    requires Called(r) && n <= |r.out[0].handler.acts| && TameActs(r.out[0].handler.acts, most) && Kept(r, c)
    requires Sub(r.now, r.base) <= Sub(clock, r.base) && Sub(clock, r.base) + most < HALF
    ensures Kept(DidAll(r, n, clock), c)
    decreases n
  {
    if n == 0 {
      DidNone(r, clock);
    } else {
      var a := r.out[0].handler.acts[n - 1];
      assert TameAct(a, most);
      if a.Arm? {
        Later(r.base, clock, a.delay);
      }
      DidAllStep(r, n, clock);
      hide Kept, Sub, Add, TameAct, Done, DoneAll;
      DidAllKept(r, n - 1, clock, most, c);
      if a.Arm? {
        ArmKept(DidAll(r, n - 1, clock), clock, c);
      } else {
        DisarmKept(DidAll(r, n - 1, clock), clock, c);
      }
    }
  }

  lemma {:induction false} DidAllPooled(r: Run, n: nat, clock: Time)
    requires Called(r) && n <= |r.out[0].handler.acts| && Pooled(r)
    ensures Pooled(DidAll(r, n, clock))
    decreases n
  {
    hide Pooled, Done;
    if n == 0 {
      DidNone(r, clock);
    } else {
      DidAllStep(r, n, clock);
      DidAllPooled(r, n - 1, clock);
      DidPooled(DidAll(r, n - 1, clock), clock);
    }
  }

  // ---------------------------------------------------------------- setting the timer again

  /** The callback has done all its acts. */
  predicate Returning(r: Run) {
    |r.out| == 1 && r.done == |r.out[0].handler.acts|
  }

  function SetAgain(r: Run, clock: Time): Run
    requires |r.out| == 1
  {
    r.(queue := Again(r.queue, r.out[0].time, r.out[0].handler, clock), out := [])
  }

  /** Setting a timer of the same callback again, for which there is one use fewer. */
  lemma RestCovers(r: Run, t: Timer, c: Choice)
    requires Returning(r) && t.handler == r.out[0].handler
    requires Weight(r.base, r.now, t.time) < Weight(r.base, r.now, r.out[0].time)
    ensures UnitsOf(Uses(r.base, r.now), t, c) <= Rest(r, c) && UnitsOf(Entries, t, c) == UnitsOf(Entries, r.out[0], c)
  {
    hide Weight, BurstBy;
  }

  lemma BackKept(r: Run, t: Timer, c: Choice)
    requires Returning(r) && t.handler == r.out[0].handler && Kept(r, c)
    requires Weight(r.base, r.now, t.time) < Weight(r.base, r.now, r.out[0].time)
    ensures Kept(r.(queue := SetIn(r.queue, t), out := []), c)
  {
    var o := r.out[0];
    assert r.out == [o];
    assert forall m :: Sum(m, [], c) == 0;
    assert Rest(r.(queue := SetIn(r.queue, t), out := []), c) == 0;
    RestCovers(r, t, c);
    hide Sum, UnitsOf, Arms, Disarms, Inserted, Weight, Rest;
    SumOne(Entries, o, c);
    if r.queue.idle == 0 {
      SumSnoc(Entries, r.queue.lost, t, c);
    } else {
      SumInserted(Uses(r.base, r.now), r.queue.list, t, c);
      SumInserted(Expired(r.base, r.now), r.queue.list, t, c);
      SumInserted(Entries, r.queue.list, t, c);
    }
  }

  lemma GoneKept(r: Run, c: Choice)
    requires Returning(r) && r.out[0].handler.Shot? && Kept(r, c) && Weight(r.base, r.now, r.out[0].time) > 0
    ensures Kept(r.(out := []), c)
  {
    var o := r.out[0];
    assert r.out == [o];
    assert forall m :: Sum(m, [], c) == 0;
    assert Rest(r, c) >= 0 && Rest(r.(out := []), c) == 0;
    assert c.Only? && c.handler.Cyclic? ==> UnitsOf(Entries, o, c) == 0;
    hide Sum, UnitsOf, Arms, Disarms, Weight, Rest;
    SumOne(Entries, o, c);
  }

  lemma SetAgainKept(r: Run, clock: Time, most: nat, c: Choice)
    requires Returning(r) && TameHandler(r.out[0].handler, most) && Kept(r, c)
    requires Sub(r.out[0].time, r.base) <= Sub(r.now, r.base) <= Sub(clock, r.base) && Sub(clock, r.base) + most < HALF
    ensures Kept(SetAgain(r, clock), c)
  {
    var o := r.out[0];
    hide Kept, SetIn, NextDue;
    match o.handler
    case Cyclic(_, interval, _) =>
      NextDueWeight(r.base, r.now, o.time, interval, clock);
      BackKept(r, Timer(NextDue(o.time, interval, clock), o.handler), c);
    case Shot(_, again, _) =>
      if again == 0 {
        GoneKept(r, c);
      } else {
        Later(r.base, clock, again);
        BackKept(r, Timer(Add(clock, again), o.handler), c);
      }
  }

  lemma SetAgainPooled(r: Run, clock: Time)
    requires |r.out| == 1 && Pooled(r)
    ensures Pooled(SetAgain(r, clock))
  {
    hide Arms, Inserted, NextDue;
  }

  // ---------------------------------------------------------------- one timer fires

  function Fire(r: Run, clock: Time): Run
    requires r.queue.list != []
  {
    SetAgain(DidAll(Took(r), |r.queue.list[0].handler.acts|, clock), clock).(done := 0)
  }

  lemma FireIs(r: Run, clock: Time)
    requires r.queue.list != [] && r.out == [] && r.done == 0 && r.asked == Asked(r.fired)
    ensures var q, t := r.queue, r.queue.list[0];
      Fire(r, clock) == r.(
        queue := Rearmed(q.(list := q.list[1..], idle := q.idle + 1), t.time, t.handler, clock),
        fired := r.fired + [t], asked := Asked(r.fired + [t]))
  {
    var t := r.queue.list[0];
    assert (r.fired + [t])[..|r.fired|] == r.fired;
    assert t.handler.acts[..|t.handler.acts|] == t.handler.acts;
    hide Again, DoneAll;
  }

  lemma Counting(r: Run, c: Choice)
    requires r.out == [] && Kept(r, c)
    ensures Kept(r.(done := 0), c)
  {
  }

  /** It keeps the accounts. */
  lemma FireKept(r: Run, clock: Time, most: nat, c: Choice)
    requires r.queue.list != [] && r.out == [] && TameHandler(r.queue.list[0].handler, most) && Kept(r, c)
    requires Sub(r.queue.list[0].time, r.base) <= Sub(r.now, r.base) <= Sub(clock, r.base)
    requires Sub(clock, r.base) + most < HALF
    ensures Kept(Fire(r, clock), c)
  {
    hide Kept, Sub, Again, DoneAll, TameActs;
    var n := |r.queue.list[0].handler.acts|;
    TookKept(r, c);
    DidAllKept(Took(r), n, clock, most, c);
    SetAgainKept(DidAll(Took(r), n, clock), clock, most, c);
    Counting(SetAgain(DidAll(Took(r), n, clock), clock), c);
  }

  lemma FirePooled(r: Run, clock: Time)
    requires r.queue.list != [] && r.out == [] && Pooled(r)
    ensures Pooled(Fire(r, clock))
  {
    var n := |r.queue.list[0].handler.acts|;
    TookPooled(r);
    DidAllPooled(Took(r), n, clock);
    SetAgainPooled(DidAll(Took(r), n, clock), clock);
    hide Again, DoneAll;
  }

  /** It keeps the order. */
  lemma FireOrdered(r: Run, clock: Time, most: nat)
    requires var list := r.queue.list;
      list != [] && Ordered(r.base, list, most) && Sub(list[0].time, r.base) <= Sub(r.now, r.base) <= Sub(clock, r.base)
    requires Sub(clock, r.base) + most < HALF
    ensures var after := Fire(r, clock).queue.list;
      Ordered(r.base, after, most) && NoneBefore(r.base, after, r.queue.list[0].time)
  {
    var t, took := r.queue.list[0], Took(r).queue;
    assert t.handler.acts[..|t.handler.acts|] == t.handler.acts;
    assert TameHandler(t.handler, most);
    TailOrdered(r.base, r.queue.list, most);
    hide Ordered, NoneBefore, Again, DoneAll, TameActs, Sub;
    DoneAllOrdered(r.base, took, t.handler.acts, clock, most, t.time);
    AgainOrdered(r.base, r.now, DoneAll(took, t.handler.acts, clock), t.time, t.handler, clock, most);
  }

  // ---------------------------------------------------------------- the times that timers are set for

  /** The callback of `f`, returning at `clock`, sets its own timer again as `t`: one interval behind the time that it was
      due at, or behind the clock if that has passed. */
  ghost predicate Itself(base: Time, f: Timer, clock: Time, t: Timer) {
    t.handler == f.handler &&
    match f.handler
    case Cyclic(_, interval, _) =>
      Sub(t.time, base) == (if Sub(f.time, base) + interval < Sub(clock, base) then Sub(clock, base) else Sub(f.time, base)) + interval
    case Shot(_, again, _) => again > 0 && Sub(t.time, base) == Sub(clock, base) + again
  }

  /** Or it sets `t`, as far ahead of the clock as it asks for. */
  ghost predicate AskedFor(base: Time, f: Timer, clock: Time, t: Timer) {
    exists i :: 0 <= i < |f.handler.acts| && Arming(base, f.handler.acts[i], clock, t)
  }

  ghost predicate Arming(base: Time, a: Act, clock: Time, t: Timer) {
    a.Arm? && a.handler == t.handler && Sub(t.time, base) == Sub(clock, base) + a.delay
  }

  lemma {:induction false} InRemoved(list: seq<Timer>, h: Handler, t: Timer)
    ensures t in Removed(list, h) ==> t in list
    decreases |list|
  {
    if list != [] && list[0].handler != h {
      InRemoved(list[1..], h, t);
    }
  }

  lemma InSet(q: Queue, x: Timer, t: Timer)
    ensures t in SetIn(q, x).list ==> t in q.list || t == x
    ensures x in SetIn(q, x).list || x in SetIn(q, x).lost
  {
    hide Place;
    var k := Place(q.list, x.time);
    if q.idle > 0 {
      assert Inserted(q.list, x)[k] == x;
    }
  }

  lemma InDone(base: Time, q: Queue, a: Act, clock: Time, most: nat, t: Timer)
    requires TameAct(a, most) && Sub(clock, base) + most < HALF
    ensures t in Done(q, a, clock).list ==> t in q.list || Arming(base, a, clock, t)
  {
    hide SetIn, Removed, Sub, Add;
    match a
    case Arm(delay, h) =>
      Later(base, clock, delay);
      InSet(q, Timer(Add(clock, delay), h), t);
    case Disarm(h) =>
      InRemoved(q.list, h, t);
  }

  lemma {:induction false} InDoneAll(base: Time, q: Queue, acts: seq<Act>, clock: Time, most: nat, t: Timer)
    requires TameActs(acts, most) && Sub(clock, base) + most < HALF
    ensures t in DoneAll(q, acts, clock).list ==>
      t in q.list || exists i :: 0 <= i < |acts| && Arming(base, acts[i], clock, t)
    decreases |acts|
  {
    hide Done, Sub, TameAct, Arming;
    if acts != [] {
      var n := |acts| - 1;
      InDoneAll(base, q, acts[..n], clock, most, t);
      InDone(base, DoneAll(q, acts[..n], clock), acts[n], clock, most, t);
      assert forall i :: 0 <= i < n ==> acts[..n][i] == acts[i];
    }
  }

  lemma AgainIs(base: Time, f: Timer, clock: Time, most: nat)
    requires TameHandler(f.handler, most) && Sub(f.time, base) <= Sub(clock, base) && Sub(clock, base) + most < HALF
    ensures f.handler.Cyclic? ==> Itself(base, f, clock, Timer(NextDue(f.time, f.handler.interval, clock), f.handler))
    ensures f.handler.Shot? && f.handler.again > 0 ==> Itself(base, f, clock, Timer(Add(clock, f.handler.again), f.handler))
  {
    hide Sub, Add, NextDue;
    match f.handler
    case Cyclic(_, interval, _) => NextDueWeight(base, clock, f.time, interval, clock);
    case Shot(_, again, _) => Later(base, clock, again);
  }

  /** Every timer that is set after a callback was set before it, or is one that the callback has set. */
  lemma RearmedTimes(base: Time, q: Queue, f: Timer, clock: Time, most: nat, t: Timer)
    requires TameHandler(f.handler, most) && Sub(f.time, base) <= Sub(clock, base) && Sub(clock, base) + most < HALF
    ensures t in Rearmed(q, f.time, f.handler, clock).list ==>
      t in q.list || AskedFor(base, f, clock, t) || Itself(base, f, clock, t)
  {
    InDoneAll(base, q, f.handler.acts, clock, most, t);
    AgainIs(base, f, clock, most);
    hide Sub, Add, NextDue, SetIn, DoneAll, Itself, Arming, TameAct;
    var d := DoneAll(q, f.handler.acts, clock);
    match f.handler
    case Cyclic(_, interval, _) => InSet(d, Timer(NextDue(f.time, interval, clock), f.handler), t);
    case Shot(_, again, _) => InSet(d, Timer(Add(clock, again), f.handler), t);
  }

  /** A callback that is to be called again is set again, unless there is no element for it. */
  lemma RearmsItself(base: Time, q: Queue, f: Timer, clock: Time, most: nat) returns (t: Timer)
    requires TameHandler(f.handler, most) && Sub(f.time, base) <= Sub(clock, base) && Sub(clock, base) + most < HALF
    requires f.handler.Cyclic? || f.handler.again > 0
    ensures Itself(base, f, clock, t)
    ensures var r := Rearmed(q, f.time, f.handler, clock); t in r.list || t in r.lost
  {
    AgainIs(base, f, clock, most);
    hide Sub, Add, NextDue, SetIn, DoneAll, Itself;
    t := match f.handler
      case Cyclic(_, interval, _) => Timer(NextDue(f.time, interval, clock), f.handler)
      case Shot(_, again, _) => Timer(Add(clock, again), f.handler);
    InSet(DoneAll(q, f.handler.acts, clock), t, t);
  }

  /** One of the callbacks that were called has set `t`, at a time from `from` to `until`. */
  ghost predicate SetBy(base: Time, fired: seq<Timer>, from: Time, until: Time, t: Timer) {
    exists i, clock: Time :: 0 <= i < |fired| && Sub(from, base) <= Sub(clock, base) <= Sub(until, base)
                             && SetWhen(base, fired[i], clock, t)
  }

  ghost predicate SetWhen(base: Time, f: Timer, clock: Time, t: Timer) {
    AskedFor(base, f, clock, t) || Itself(base, f, clock, t)
  }

  ghost predicate Sourced(base: Time, was: seq<Timer>, list: seq<Timer>, fired: seq<Timer>, from: Time, until: Time) {
    forall t :: t in list ==> t in was || SetBy(base, fired, from, until, t)
  }

  lemma SetByMore(base: Time, fired: seq<Timer>, f: Timer, from: Time, until: Time, later: Time, t: Timer)
    requires SetBy(base, fired, from, until, t) && Sub(until, base) <= Sub(later, base)
    ensures SetBy(base, fired + [f], from, later, t)
  {
    hide Sub, SetWhen;
    var i, clock: Time :| 0 <= i < |fired| && Sub(from, base) <= Sub(clock, base) <= Sub(until, base)
                          && SetWhen(base, fired[i], clock, t);
    assert (fired + [f])[i] == fired[i];
  }

  lemma SourcedStep(base: Time, was: seq<Timer>, q: Queue, fired: seq<Timer>, from: Time, until: Time, clock: Time, most: nat)
    requires q.list != [] && Sourced(base, was, q.list, fired, from, until) && TameHandler(q.list[0].handler, most)
    requires Sub(q.list[0].time, base) <= Sub(from, base) <= Sub(until, base) <= Sub(clock, base)
    requires Sub(clock, base) + most < HALF
    ensures var f := q.list[0];
      Sourced(base, was, Rearmed(q.(list := q.list[1..], idle := q.idle + 1), f.time, f.handler, clock).list, fired + [f], from,
              clock)
  {
    hide Sub, Rearmed, SetBy, TameHandler, AskedFor, Itself;
    var f := q.list[0];
    var rest := q.(list := q.list[1..], idle := q.idle + 1);
    forall t | t in Rearmed(rest, f.time, f.handler, clock).list
      ensures t in was || SetBy(base, fired + [f], from, clock, t)
    {
      RearmedTimes(base, rest, f, clock, most, t);
      if t in rest.list {
        assert t in q.list;
        if t !in was {
          SetByMore(base, fired, f, from, until, clock, t);
        }
      } else {
        SetByLast(base, fired, f, from, clock, t);
      }
    }
  }

  lemma SetByLast(base: Time, fired: seq<Timer>, f: Timer, from: Time, clock: Time, t: Timer)
    requires Sub(from, base) <= Sub(clock, base) && SetWhen(base, f, clock, t)
    ensures SetBy(base, fired + [f], from, clock, t)
  {
    hide Sub, SetWhen;
    assert (fired + [f])[|fired|] == f;
  }
}
