/** The wake-up protocol between `lwip_select` and `event_callback`: a state machine whose steps are
    the protected sections of both. Any number of selects and callbacks run at the same time. */
module SelectWake {
  import opened SocketStatus

  type Fd = nat
  type SelectId = nat
  type CallbackId = nat

  /** The part of `struct lwip_sock` that select looks at. `quiet` tells that `sendevent` was set by `alloc_socket`
      and not by an event. */
  datatype Sock = Sock(rcvevent: int, sendevent: bool, errevent: bool, lastdata: bool, waiting: nat, quiet: bool)

  /** `struct lwip_select_cb` and the progress of the select that owns it. `told` are the sockets on
      which it has raised `select_waiting`, `scanned` those its second scan found not ready. */
  datatype Phase = Telling | Scanning | Asleep | Withdrawing
  datatype Select = Select(read: set<Fd>, write: set<Fd>, except: set<Fd>,
                           phase: Phase, told: set<Fd>, scanned: set<Fd>, signalled: bool) {
    function Wanted(): set<Fd> {
      read + write + except
    }
  }

  /** A callback inside `select_check_waiters`: the socket, the events it saw, and where it is in
      the waiter list. `seen` is its copy of `select_cb_ctr`; it has none before it starts. */
  datatype Walk = Walk(fd: Fd, recv: bool, send: bool, err: bool, started: bool, seen: nat, pos: nat)

  datatype State = State(
    socks: map<Fd, Sock>, selects: map<SelectId, Select>, list: seq<SelectId>, ctr: nat,
    walks: map<CallbackId, Walk>)

  datatype Event = RcvPlus | RcvMinus | SendPlus | SendMinus | Error

  datatype Step =
    | Occur(c: CallbackId, fd: Fd, evt: Event)
    | Advance(c: CallbackId)
    | Link(x: SelectId, read: set<Fd>, write: set<Fd>, except: set<Fd>)
    | Tell(x: SelectId, fd: Fd)
    | StartScan(x: SelectId)
    | Look(x: SelectId, fd: Fd)
    | Sleep(x: SelectId)
    | Wake(x: SelectId)
    | Untell(x: SelectId, fd: Fd)
    | Unlink(x: SelectId)
    | Keep(fd: Fd, lastdata: bool)
    // `alloc_socket` initialises the slot without protection, one field after the other
    | ZeroRcv(fd: Fd)
    | InitSend(fd: Fd, on: bool)
    | ClearErr(fd: Fd)

  const FULL := 255

  // ---------------------------------------------------------------- event_callback

  /** What an event does to the socket, and whether it asks for the waiters to be checked. */
  function Raise(so: Sock, evt: Event): (Sock, bool) {
    match evt
    case RcvPlus => (so.(rcvevent := so.rcvevent + 1), so.rcvevent + 1 <= 1)
    case RcvMinus => (so.(rcvevent := so.rcvevent - 1), false)
    case SendPlus => (so.(sendevent := true), !so.sendevent)
    case SendMinus => (so.(sendevent := false, quiet := false), false)
    case Error => (so.(errevent := true), true)
  }

  function Occurs(st: State, c: CallbackId, fd: Fd, evt: Event): State
    requires fd in st.socks
  {
    var (so, check) := Raise(st.socks[fd], evt);
    var st' := st.(socks := st.socks[fd := so]);
    if so.waiting > 0 && check then
      st'.(walks := st.walks[c := Walk(fd, so.rcvevent > 0, so.sendevent, so.errevent, false, 0, 0)])
    else st'
  }

  // ---------------------------------------------------------------- select_check_waiters

  /** The walk signals this waiter. */
  predicate Matches(w: Walk, sel: Select) {
    || (w.recv && w.fd in sel.read)
    || (w.send && w.fd in sel.write)
    || (w.err && w.fd in sel.except)
  }

  /** One protected stretch: start over if the list has changed, then treat one waiter or finish. */
  function Walks(st: State, c: CallbackId): State
    requires c in st.walks
  {
    var w0 := st.walks[c];
    var w := if w0.started && w0.seen == st.ctr then w0 else w0.(started := true, seen := st.ctr, pos := 0);
    if w.pos >= |st.list| then st.(walks := st.walks - {c})
    else
      var x := st.list[w.pos];
      var st' := st.(walks := st.walks[c := w.(pos := w.pos + 1)]);
      if x in st.selects && !st.selects[x].signalled && Matches(w, st.selects[x])
      then st'.(selects := st.selects[x := st.selects[x].(signalled := true)])
      else st'
  }

  // ---------------------------------------------------------------- lwip_select

  /** What `lwip_selscan` takes for ready. */
  predicate Ready(sel: Select, fd: Fd, so: Sock) {
    var status := Status(so.lastdata, so.rcvevent, so.sendevent, so.errevent);
    || (fd in sel.read && status.Ready(Read))
    || (fd in sel.write && status.Ready(Write))
    || (fd in sel.except && status.Ready(Except))
  }

  /** Ready because of an event. */
  predicate EventReady(sel: Select, fd: Fd, so: Sock) {
    || (fd in sel.read && so.rcvevent > 0)
    || (fd in sel.write && so.sendevent && !so.quiet)
    || (fd in sel.except && so.errevent)
  }

  function SetWaiting(st: State, fd: Fd, n: nat): State
    requires fd in st.socks
  {
    st.(socks := st.socks[fd := st.socks[fd].(waiting := n)])
  }

  function SetSock(st: State, fd: Fd, so: Sock): State {
    st.(socks := st.socks[fd := so])
  }

  function SetSelect(st: State, x: SelectId, sel: Select): State {
    st.(selects := st.selects[x := sel])
  }

  function Without(list: seq<SelectId>, x: SelectId): seq<SelectId> {
    if list == [] then [] else if list[0] == x then list[1..] else [list[0]] + Without(list[1..], x)
  }

  predicate Enabled(st: State, step: Step) {
    match step
    case Occur(c, fd, _) => fd in st.socks && c !in st.walks
    case Advance(c) => c in st.walks
    case Link(x, _, _, _) => x !in st.selects
    case Tell(x, fd) => x in st.selects && st.selects[x].phase.Telling? && fd in st.selects[x].Wanted() - st.selects[x].told
    case StartScan(x) => x in st.selects && st.selects[x].phase.Telling? && st.selects[x].told == st.selects[x].Wanted()
    case Look(x, fd) => x in st.selects && st.selects[x].phase.Scanning? && fd in st.selects[x].Wanted()
    case Sleep(x) => x in st.selects && st.selects[x].phase.Scanning? && st.selects[x].scanned == st.selects[x].Wanted()
    case Wake(x) => x in st.selects && st.selects[x].phase.Asleep?
    case Untell(x, fd) => x in st.selects && st.selects[x].phase.Withdrawing? && fd in st.selects[x].told && fd in st.socks
    case Unlink(x) => x in st.selects && st.selects[x].phase.Withdrawing? && st.selects[x].told == {}
    case Keep(fd, _) => fd in st.socks
    case ZeroRcv(fd) => fd in st.socks
    case InitSend(fd, _) => fd in st.socks
    case ClearErr(fd) => fd in st.socks
  }

  /** A step that is not enabled does not happen. */
  function Apply(st: State, step: Step): State {
    if !Enabled(st, step) then st else
    match step
    case Occur(c, fd, evt) => Occurs(st, c, fd, evt)
    case Advance(c) => Walks(st, c)
    case Link(x, r, w, e) =>
      st.(selects := st.selects[x := Select(r, w, e, Telling, {}, {}, false)], list := [x] + st.list, ctr := st.ctr + 1)
    case Tell(x, fd) =>
      // a socket that cannot be held, or a full counter, ends the select
      if fd !in st.socks || st.socks[fd].waiting == FULL then SetSelect(st, x, st.selects[x].(phase := Withdrawing))
      else SetWaiting(SetSelect(st, x, st.selects[x].(told := st.selects[x].told + {fd})), fd, st.socks[fd].waiting + 1)
    case StartScan(x) => SetSelect(st, x, st.selects[x].(phase := Scanning))
    case Look(x, fd) =>
      if fd !in st.socks || Ready(st.selects[x], fd, st.socks[fd]) then SetSelect(st, x, st.selects[x].(phase := Withdrawing))
      else SetSelect(st, x, st.selects[x].(scanned := st.selects[x].scanned + {fd}))
    case Sleep(x) => SetSelect(st, x, st.selects[x].(phase := Asleep))
    case Wake(x) => SetSelect(st, x, st.selects[x].(phase := Withdrawing))
    case Untell(x, fd) =>
      SetWaiting(SetSelect(st, x, st.selects[x].(told := st.selects[x].told - {fd})), fd,
                 if st.socks[fd].waiting > 0 then st.socks[fd].waiting - 1 else 0)
    case Unlink(x) => st.(selects := st.selects - {x}, list := Without(st.list, x), ctr := st.ctr + 1)
    case Keep(fd, lastdata) => SetSock(st, fd, st.socks[fd].(lastdata := lastdata))
    case ZeroRcv(fd) => SetSock(st, fd, st.socks[fd].(rcvevent := 0))
    case InitSend(fd, on) =>
      var so := st.socks[fd];
      SetSock(st, fd, so.(sendevent := on, quiet := on && (so.quiet || !so.sendevent)))
    case ClearErr(fd) => SetSock(st, fd, st.socks[fd].(errevent := false))
  }

  function Run(st: State, steps: seq<Step>): State
    decreases |steps|
  {
    if steps == [] then st else Run(Apply(st, steps[0]), steps[1..])
  }

  /** No select and no callback is under way. */
  ghost predicate Initial(st: State) {
    && st.selects == map[] && st.list == [] && st.walks == map[]
    && forall fd :: fd in st.socks ==> st.socks[fd].waiting == 0
  }

  // ---------------------------------------------------------------- the invariant

  /** The waiter list names every select under way exactly once, and what it announced. */
  ghost predicate Linked(st: State) {
    && (forall x :: x in st.selects <==> x in st.list)
    && Distinct(st.list)
  }

  ghost predicate Distinct(list: seq<SelectId>) {
    forall i, j :: 0 <= i < j < |list| ==> list[i] != list[j]
  }

  ghost predicate Sound(sel: Select, fds: set<Fd>) {
    && sel.told <= fds
    && sel.scanned <= sel.Wanted()
    && (sel.phase.Telling? ==> sel.scanned == {})
    && (sel.phase.Scanning? || sel.phase.Asleep? ==> sel.told == sel.Wanted())
    && (sel.phase.Asleep? ==> sel.scanned == sel.Wanted())
  }

  ghost predicate AllSound(st: State) {
    forall x :: x in st.selects ==> Sound(st.selects[x], st.socks.Keys)
  }

  /** The selects that have announced themselves on `fd`. */
  ghost function Waiters(selects: map<SelectId, Select>, fd: Fd): set<SelectId> {
    set x | x in selects && fd in selects[x].told
  }

  /** `select_waiting` counts them. */
  ghost predicate Counted(st: State) {
    forall fd :: fd in st.socks ==> st.socks[fd].waiting == |Waiters(st.selects, fd)|
  }

  ghost predicate Placed(st: State) {
    forall c :: c in st.walks && st.walks[c].started ==>
      st.walks[c].seen <= st.ctr && (st.walks[c].seen == st.ctr ==> st.walks[c].pos <= |st.list|)
  }

  /** The walk has not passed `x` on the list as it is now. */
  ghost predicate Ahead(st: State, w: Walk, x: SelectId) {
    !w.started || w.seen != st.ctr || exists i :: w.pos <= i < |st.list| && st.list[i] == x
  }

  /** Callback `c` is on its way to signal select `x` because of `fd`. */
  ghost predicate Coming(st: State, c: CallbackId, x: SelectId, fd: Fd) {
    && c in st.walks && x in st.selects && st.walks[c].fd == fd
    && Matches(st.walks[c], st.selects[x]) && Ahead(st, st.walks[c], x)
  }

  /** Select `x` relies on being woken for `fd`, and `fd` is ready. */
  ghost predicate Owed(st: State, x: SelectId, fd: Fd) {
    && x in st.selects && fd in st.socks
    && (st.selects[x].phase.Scanning? || st.selects[x].phase.Asleep?)
    && !st.selects[x].signalled && fd in st.selects[x].scanned
    && EventReady(st.selects[x], fd, st.socks[fd])
  }

  ghost predicate NoneLost(st: State) {
    forall x, fd :: Owed(st, x, fd) ==> exists c :: Coming(st, c, x, fd)
  }

  ghost predicate Inv(st: State) {
    Linked(st) && AllSound(st) && Counted(st) && Placed(st) && NoneLost(st)
  }

  // ---------------------------------------------------------------- Linked, Sound and Placed

  lemma {:induction false} WithoutContents(list: seq<SelectId>, x: SelectId)
    requires Distinct(list)
    ensures forall y :: y in Without(list, x) <==> y in list && y != x
    ensures Distinct(Without(list, x))
  {
    if list != [] {
      var rest := list[1..];
      assert list == [list[0]] + rest && list[0] !in rest && Distinct(rest);
      if list[0] != x {
        WithoutContents(rest, x);
        var l := Without(rest, x);
        assert list[0] !in l;
        assert Without(list, x) == [list[0]] + l;
      }
    }
  }

  /** Only linking and unlinking change who is under way. */
  lemma SameSelects(st: State, step: Step)
    requires !step.Link? && !step.Unlink?
    ensures Apply(st, step).selects.Keys == st.selects.Keys
    ensures Apply(st, step).list == st.list && Apply(st, step).ctr == st.ctr
  {
  }

  lemma LinkedStep(st: State, step: Step)
    requires Linked(st)
    ensures Linked(Apply(st, step))
  {
    if Enabled(st, step) && step.Link? {
      var st' := Apply(st, step);
      assert forall y :: y in st'.list <==> y == step.x || y in st.list;
    } else if Enabled(st, step) && step.Unlink? {
      WithoutContents(st.list, step.x);
      var st' := Apply(st, step);
      assert st'.list == Without(st.list, step.x) && st'.selects == st.selects - {step.x};
      hide Without, Apply, Enabled;
      assert forall y :: y in st'.selects <==> y in st.selects && y != step.x;
    } else if !step.Link? && !step.Unlink? {
      SameSelects(st, step);
      var st' := Apply(st, step);
      hide Apply;
      assert forall x :: x in st'.selects <==> x in st'.selects.Keys;
      assert forall x :: x in st.selects <==> x in st.selects.Keys;
    }
  }

  lemma SoundAt(st: State, step: Step, x: SelectId)
    requires AllSound(st) && x in Apply(st, step).selects
    ensures Sound(Apply(st, step).selects[x], st.socks.Keys)
  {
    hide Ready, Matches, Without, Raise;
    assert x in st.selects ==> Sound(st.selects[x], st.socks.Keys);
  }

  lemma SameSocks(st: State, step: Step)
    ensures Apply(st, step).socks.Keys == st.socks.Keys
  {
  }

  lemma SoundStep(st: State, step: Step)
    requires AllSound(st)
    ensures AllSound(Apply(st, step))
  {
    SameSocks(st, step);
    hide Apply, Sound;
    forall x | x in Apply(st, step).selects ensures Sound(Apply(st, step).selects[x], st.socks.Keys) {
      SoundAt(st, step, x);
    }
  }

  lemma PlacedStep(st: State, step: Step)
    requires Placed(st)
    ensures Placed(Apply(st, step))
  {
  }

  // ---------------------------------------------------------------- Counted

  /** Only announcing and withdrawing change who waits on a socket, and its counter. */
  lemma SameTold(st: State, step: Step, fd: Fd, x: SelectId)
    requires step.Tell? || step.Untell? ==> !Enabled(st, step) || step.fd != fd
    ensures x in Waiters(Apply(st, step).selects, fd) <==> x in Waiters(st.selects, fd)
  {
  }

  lemma SameWaiting(st: State, step: Step, fd: Fd)
    requires fd in st.socks
    requires step.Tell? || step.Untell? ==> !Enabled(st, step) || step.fd != fd
    ensures fd in Apply(st, step).socks && Apply(st, step).socks[fd].waiting == st.socks[fd].waiting
  {
  }

  lemma SameWaiters(st: State, step: Step, fd: Fd)
    requires fd in st.socks
    requires step.Tell? || step.Untell? ==> !Enabled(st, step) || step.fd != fd
    ensures fd in Apply(st, step).socks && Apply(st, step).socks[fd].waiting == st.socks[fd].waiting
    ensures Waiters(Apply(st, step).selects, fd) == Waiters(st.selects, fd)
  {
    hide Waiters, Apply;
    SameWaiting(st, step, fd);
    forall x ensures x in Waiters(Apply(st, step).selects, fd) <==> x in Waiters(st.selects, fd) {
      SameTold(st, step, fd, x);
    }
  }

  lemma TellCounted(st: State, x: SelectId, fd: Fd)
    requires Counted(st) && Enabled(st, Tell(x, fd)) && fd in st.socks
    ensures Apply(st, Tell(x, fd)).socks[fd].waiting == |Waiters(Apply(st, Tell(x, fd)).selects, fd)|
  {
    var st' := Apply(st, Tell(x, fd));
    var before := Waiters(st.selects, fd);
    assert x !in before;
    if st.socks[fd].waiting == FULL {
      assert Waiters(st'.selects, fd) == before;
    } else {
      assert Waiters(st'.selects, fd) == before + {x};
    }
  }

  lemma UntellCounted(st: State, x: SelectId, fd: Fd)
    requires Counted(st) && Enabled(st, Untell(x, fd))
    ensures Apply(st, Untell(x, fd)).socks[fd].waiting == |Waiters(Apply(st, Untell(x, fd)).selects, fd)|
  {
    var st' := Apply(st, Untell(x, fd));
    var before := Waiters(st.selects, fd);
    assert x in before;
    assert Waiters(st'.selects, fd) == before - {x};
  }

  lemma CountedStep(st: State, step: Step)
    requires Counted(st)
    ensures Counted(Apply(st, step))
  {
    var st' := Apply(st, step);
    assert st'.socks.Keys == st.socks.Keys;
    assert forall fd :: fd in st'.socks <==> fd in st'.socks.Keys;
    forall fd | fd in st'.socks ensures st'.socks[fd].waiting == |Waiters(st'.selects, fd)| {
      if Enabled(st, step) && step.Tell? && step.fd == fd {
        TellCounted(st, step.x, fd);
      } else if Enabled(st, step) && step.Untell? && step.fd == fd {
        UntellCounted(st, step.x, fd);
      } else {
        SameWaiters(st, step, fd);
      }
    }
  }

  // ---------------------------------------------------------------- NoneLost

  /** What was owed before an event that asks for no check, or concerns another socket, is all that
      is owed after it. */
  lemma QuietEvent(sel: Select, fd: Fd, so: Sock, evt: Event)
    requires !Raise(so, evt).1 && EventReady(sel, fd, Raise(so, evt).0)
    ensures EventReady(sel, fd, so)
  {
  }

  lemma OccurKeeps(st: State, c: CallbackId, fd: Fd, evt: Event)
    requires Inv(st) && fd in st.socks && c !in st.walks
    ensures NoneLost(Occurs(st, c, fd, evt))
  {
    var st' := Occurs(st, c, fd, evt);
    forall x, f | Owed(st', x, f) ensures exists d :: Coming(st', d, x, f) {
      if f == fd && Raise(st.socks[fd], evt).1 {
        // `x` has announced itself on `fd`, so the callback checks the waiters
        assert Sound(st.selects[x], st.socks.Keys);
        assert x in Waiters(st.selects, fd);
        assert Coming(st', c, x, fd);
      } else {
        if f == fd {
          QuietEvent(st.selects[x], fd, st.socks[fd], evt);
        }
        assert Owed(st, x, f);
        var d :| Coming(st, d, x, f);
        assert Coming(st', d, x, f);
      }
    }
  }

  lemma WalkKeeps(st: State, c: CallbackId)
    requires Inv(st) && c in st.walks
    ensures NoneLost(Walks(st, c))
  {
    var st' := Walks(st, c);
    forall x, f | Owed(st', x, f) ensures exists d :: Coming(st', d, x, f) {
      assert Owed(st, x, f);
      var d :| Coming(st, d, x, f);
      if d == c {
        WalkPasses(st, c, x);
      }
      assert Coming(st', d, x, f);
    }
  }

  /** A walk that has `x` ahead and matches it either signals it now or still has it ahead. */
  lemma WalkPasses(st: State, c: CallbackId, x: SelectId)
    requires Linked(st) && c in st.walks && x in st.selects
    requires Matches(st.walks[c], st.selects[x]) && Ahead(st, st.walks[c], x)
    ensures var st' := Walks(st, c);
            && x in st'.selects
            && (st'.selects[x].signalled || (c in st'.walks && Ahead(st', st'.walks[c], x)))
            && (c in st'.walks ==> Matches(st'.walks[c], st.selects[x]) && st'.walks[c].fd == st.walks[c].fd)
  {
    var w0 := st.walks[c];
    var pos := if w0.started && w0.seen == st.ctr then w0.pos else 0;
    assert x in st.list;
    assert exists i :: pos <= i < |st.list| && st.list[i] == x;
    var i :| pos <= i < |st.list| && st.list[i] == x;
    assert i == pos || pos + 1 <= i;
  }

  /** Steps of selects, and lastdata, make nothing ready by an event. */
  /** Steps that change nothing but one socket. */
  predicate OnSock(step: Step) {
    step.Keep? || step.ZeroRcv? || step.InitSend? || step.ClearErr?
  }

  lemma SockOwed(st: State, step: Step, x: SelectId, f: Fd)
    requires Enabled(st, step) && OnSock(step) && Owed(Apply(st, step), x, f)
    ensures Owed(st, x, f) && Apply(st, step).selects == st.selects
  {
  }

  lemma LookOwed(st: State, step: Step, x: SelectId, f: Fd)
    requires Enabled(st, step) && step.Look? && Owed(Apply(st, step), x, f)
    ensures Owed(st, x, f)
    ensures Apply(st, step).selects[x] == st.selects[x].(scanned := Apply(st, step).selects[x].scanned)
  {
  }

  lemma SelectOwed(st: State, step: Step, x: SelectId, f: Fd)
    requires AllSound(st) && Enabled(st, step) && !step.Occur? && !step.Advance? && !step.Look? && !OnSock(step)
    requires Owed(Apply(st, step), x, f)
    ensures Owed(st, x, f)
    ensures Apply(st, step).selects[x].read == st.selects[x].read
    ensures Apply(st, step).selects[x].write == st.selects[x].write
    ensures Apply(st, step).selects[x].except == st.selects[x].except
  {
    assert x in st.selects ==> Sound(st.selects[x], st.socks.Keys);
    hide Ready, Without;
  }

  lemma OtherOwed(st: State, step: Step, x: SelectId, f: Fd)
    requires AllSound(st) && Enabled(st, step) && !step.Occur? && !step.Advance?
    requires Owed(Apply(st, step), x, f)
    ensures Owed(st, x, f)
    ensures Apply(st, step).selects[x].read == st.selects[x].read
    ensures Apply(st, step).selects[x].write == st.selects[x].write
    ensures Apply(st, step).selects[x].except == st.selects[x].except
  {
    hide Apply, Owed, AllSound, Enabled;
    ComingSelect(Apply(st, step), x, f);
    if OnSock(step) {
      SockOwed(st, step, x, f);
    } else if step.Look? {
      LookOwed(st, step, x, f);
    } else {
      SelectOwed(st, step, x, f);
    }
    ComingSelect(st, x, f);
  }

  lemma OtherKeeps(st: State, step: Step)
    requires Inv(st) && Enabled(st, step) && !step.Occur? && !step.Advance?
    ensures NoneLost(Apply(st, step))
  {
    hide Apply, Owed, Coming, Enabled, AllSound, Counted, Linked, Placed;
    forall x, f | Owed(Apply(st, step), x, f) ensures exists d :: Coming(Apply(st, step), d, x, f) {
      OtherOwed(st, step, x, f);
      var d :| Coming(st, d, x, f);
      ComingSelect(Apply(st, step), x, f);
      OtherComing(st, step, d, x, f);
    }
  }

  lemma ComingSelect(st: State, x: SelectId, f: Fd)
    requires Owed(st, x, f)
    ensures x in st.selects
  {
  }

  lemma OtherComing(st: State, step: Step, d: CallbackId, x: SelectId, f: Fd)
    requires Placed(st) && Enabled(st, step) && !step.Occur? && !step.Advance?
    requires Coming(st, d, x, f) && x in Apply(st, step).selects
    requires Apply(st, step).selects[x].read == st.selects[x].read
    requires Apply(st, step).selects[x].write == st.selects[x].write
    requires Apply(st, step).selects[x].except == st.selects[x].except
    ensures Coming(Apply(st, step), d, x, f)
  {
  }

  lemma StepKeeps(st: State, step: Step)
    requires Inv(st)
    ensures Inv(Apply(st, step))
  {
    LinkedStep(st, step);
    SoundStep(st, step);
    CountedStep(st, step);
    PlacedStep(st, step);
    if Enabled(st, step) {
      if step.Occur? {
        OccurKeeps(st, step.c, step.fd, step.evt);
      } else if step.Advance? {
        WalkKeeps(st, step.c);
      } else {
        OtherKeeps(st, step);
      }
    }
  }

  /** Over every run from a quiet start. */
  lemma {:induction false} RunKeeps(st: State, steps: seq<Step>)
    requires Inv(st)
    ensures Inv(Run(st, steps))
    decreases |steps|
  {
    hide Inv, Apply;
    if steps != [] {
      StepKeeps(st, steps[0]);
      RunKeeps(Apply(st, steps[0]), steps[1..]);
    }
  }

  lemma InitialInv(st: State)
    requires Initial(st)
    ensures Inv(st)
  {
    assert forall fd :: fd in st.socks ==> Waiters(st.selects, fd) == {};
  }

  // ---------------------------------------------------------------- no lost wake-up

  /** In every interleaving: when a socket that a sleeping select wants is ready by an event, the
      select's semaphore is signalled or a callback is on its way to signal it. */
  lemma NoLostWakeup(st0: State, steps: seq<Step>, x: SelectId, fd: Fd)
    requires Initial(st0)
    requires var st := Run(st0, steps);
             && x in st.selects && st.selects[x].phase.Asleep? && fd in st.selects[x].Wanted() && fd in st.socks
             && EventReady(st.selects[x], fd, st.socks[fd])
    ensures var st := Run(st0, steps);
            st.selects[x].signalled || exists c :: Coming(st, c, x, fd)
  {
    InitialInv(st0);
    RunKeeps(st0, steps);
    var st := Run(st0, steps);
    assert Sound(st.selects[x], st.socks.Keys);
    if !st.selects[x].signalled {
      assert Owed(st, x, fd);
    }
  }

  /** Let callback `c` run to its end. */
  function Finish(st: State, c: CallbackId): State
    requires c in st.walks ==> Placed(st)
    decreases if c !in st.walks then 0
              else if st.walks[c].started && st.walks[c].seen == st.ctr then |st.list| - st.walks[c].pos + 1
              else |st.list| + 2
  {
    if c !in st.walks then st
    else
      PlacedStep(st, Advance(c));
      Finish(Walks(st, c), c)
  }

  /** A callback that is on its way does arrive: it ends, and the select is signalled by then. */
  lemma {:induction false} ComingArrives(st: State, c: CallbackId, x: SelectId, fd: Fd)
    requires Linked(st) && Placed(st)
    requires x in st.selects && (st.selects[x].signalled || Coming(st, c, x, fd))
    ensures c !in Finish(st, c).walks && x in Finish(st, c).selects && Finish(st, c).selects[x].signalled
    decreases if c !in st.walks then 0
              else if st.walks[c].started && st.walks[c].seen == st.ctr then |st.list| - st.walks[c].pos + 1
              else |st.list| + 2
  {
    if c in st.walks {
      PlacedStep(st, Advance(c));
      LinkedStep(st, Advance(c));
      WalkStays(st, c, x);
      if !st.selects[x].signalled {
        WalkPasses(st, c, x);
      }
      WalkShrinks(st, c);
      hide Walks, Placed, Linked;
      ComingArrives(Walks(st, c), c, x, fd);
    }
  }

  lemma WalkStays(st: State, c: CallbackId, x: SelectId)
    requires c in st.walks && x in st.selects
    ensures x in Walks(st, c).selects
    ensures st.selects[x].signalled ==> Walks(st, c).selects[x].signalled
    ensures Walks(st, c).selects[x].signalled || Walks(st, c).selects[x] == st.selects[x]
  {
  }

  lemma WalkShrinks(st: State, c: CallbackId)
    requires c in st.walks && Placed(st)
    ensures var st' := Walks(st, c);
            && st'.list == st.list && st'.ctr == st.ctr
            && (c in st'.walks ==>
                  && st'.walks[c].started && st'.walks[c].seen == st.ctr && st'.walks[c].pos <= |st.list|
                  && (st.walks[c].started && st.walks[c].seen == st.ctr ==> st'.walks[c].pos == st.walks[c].pos + 1))
  {
  }

  /** Any step leaves a sleeping select signalled if it was, and a callback on its way to it on its way unless it
      signals it now. */
  lemma ComingStep(st: State, step: Step, c: CallbackId, x: SelectId, fd: Fd)
    requires Linked(st) && Placed(st) && x in st.selects && (st.selects[x].signalled || Coming(st, c, x, fd))
    requires x in Apply(st, step).selects && st.selects[x].phase.Asleep? && Apply(st, step).selects[x].phase.Asleep?
    ensures Apply(st, step).selects[x].signalled || Coming(Apply(st, step), c, x, fd)
  {
    if Enabled(st, step) && !st.selects[x].signalled {
      if step.Advance? {
        WalkStays(st, step.c, x);
        if step.c == c {
          WalkPasses(st, c, x);
        }
      } else if !step.Occur? {
        SleeperKept(st, step, x);
        OtherComing(st, step, c, x, fd);
      }
    }
  }

  lemma SleeperKept(st: State, step: Step, x: SelectId)
    requires Linked(st) && Enabled(st, step) && !step.Occur? && !step.Advance?
    requires x in st.selects && x in Apply(st, step).selects
    ensures Apply(st, step).selects[x].read == st.selects[x].read
    ensures Apply(st, step).selects[x].write == st.selects[x].write
    ensures Apply(st, step).selects[x].except == st.selects[x].except
  {
    hide Occurs, Walks, Without, Ready, Linked;
  }

  /** Select `x` sleeps in the state and after each of the steps. */
  ghost predicate SleepsThrough(st: State, steps: seq<Step>, x: SelectId)
    decreases |steps|
  {
    && x in st.selects && st.selects[x].phase.Asleep?
    && (steps != [] ==> SleepsThrough(Apply(st, steps[0]), steps[1..], x))
  }

  /** However steps are interleaved: while the select sleeps, the callback stays on its way until it has signalled it.
      So once the callback has ended, the select is signalled. */
  lemma {:induction false} ComingArrivesAmongOthers(st: State, steps: seq<Step>, c: CallbackId, x: SelectId, fd: Fd)
    requires Inv(st) && SleepsThrough(st, steps, x) && (st.selects[x].signalled || Coming(st, c, x, fd))
    ensures x in Run(st, steps).selects
    ensures Run(st, steps).selects[x].signalled || Coming(Run(st, steps), c, x, fd)
    ensures c !in Run(st, steps).walks ==> Run(st, steps).selects[x].signalled
    decreases |steps|
  {
    hide Apply, Linked, Placed, AllSound, Counted, NoneLost;
    if steps != [] {
      ComingStep(st, steps[0], c, x, fd);
      StepKeeps(st, steps[0]);
      ComingArrivesAmongOthers(Apply(st, steps[0]), steps[1..], c, x, fd);
    }
  }

  // ---------------------------------------------------------------- the exact condition

  /** Ready without an event: a reader has left data behind, or `alloc_socket` has made the socket writable. */
  ghost predicate ReadyUnannounced(sel: Select, fd: Fd, so: Sock) {
    (fd in sel.read && so.lastdata) || (fd in sel.write && so.sendevent && so.quiet)
  }

  lemma ReadyEitherWay(sel: Select, fd: Fd, so: Sock)
    ensures Ready(sel, fd, so) <==> EventReady(sel, fd, so) || ReadyUnannounced(sel, fd, so)
  {
  }

  /** With no callback under way, a select that sleeps unsignalled misses a ready socket exactly when a socket that it
      wants to read has data left behind by a reader, or one that it wants to write was made writable by `alloc_socket`:
      neither raises an event. */
  lemma SleepsRightly(st0: State, steps: seq<Step>, x: SelectId)
    requires Initial(st0)
    requires var st := Run(st0, steps);
             st.walks == map[] && x in st.selects && st.selects[x].phase.Asleep? && !st.selects[x].signalled
    ensures var st := Run(st0, steps);
            (exists fd :: fd in st.selects[x].Wanted() && fd in st.socks && Ready(st.selects[x], fd, st.socks[fd]))
            <==> (exists fd :: fd in st.selects[x].Wanted() && fd in st.socks && ReadyUnannounced(st.selects[x], fd, st.socks[fd]))
  {
    var st := Run(st0, steps);
    forall fd | fd in st.selects[x].Wanted() && fd in st.socks
      ensures Ready(st.selects[x], fd, st.socks[fd]) <==> ReadyUnannounced(st.selects[x], fd, st.socks[fd])
    {
      ReadyEitherWay(st.selects[x], fd, st.socks[fd]);
      if EventReady(st.selects[x], fd, st.socks[fd]) {
        NoLostWakeup(st0, steps, x, fd);
      }
    }
  }

  /** `quiet` says where `sendevent` comes from: it is set by `alloc_socket` writing true over false, and by nothing
      else, and any event that clears `sendevent` clears it. */
  lemma QuietIsFromAlloc(st: State, step: Step, fd: Fd)
    requires fd in st.socks && fd in Apply(st, step).socks
    requires !st.socks[fd].quiet && Apply(st, step).socks[fd].quiet
    ensures step == InitSend(fd, true) && !st.socks[fd].sendevent
  {
  }

  // ---------------------------------------------------------------- such sleeps do happen

  /** A select asleep on socket 7, for reading or for writing. */
  function Nap(writing: bool, phase: Phase, told: set<Fd>, scanned: set<Fd>, lastdata: bool, writable: bool): State {
    State(map[7 := Sock(0, writable, false, lastdata, |told|, writable)],
          map[0 := Select(if writing then {} else {7}, if writing then {7} else {}, {}, phase, told, scanned, false)],
          [0], 1, map[])
  }

  const IDLE := State(map[7 := Sock(0, false, false, false, 0, false)], map[], [], 0, map[])

  function ToSleep(writing: bool): seq<Step> {
    [Link(0, if writing then {} else {7}, if writing then {7} else {}, {}), Tell(0, 7), StartScan(0), Look(0, 7), Sleep(0)]
  }

  lemma NapBegins(writing: bool)
    ensures Apply(IDLE, ToSleep(writing)[0]) == Nap(writing, Telling, {}, {}, false, false)
  {
  }

  lemma NapTells(writing: bool)
    ensures Apply(Nap(writing, Telling, {}, {}, false, false), Tell(0, 7)) == Nap(writing, Telling, {7}, {}, false, false)
  {
  }

  lemma NapScans(writing: bool)
    ensures Apply(Nap(writing, Telling, {7}, {}, false, false), StartScan(0)) == Nap(writing, Scanning, {7}, {}, false, false)
    ensures Apply(Nap(writing, Scanning, {7}, {}, false, false), Look(0, 7)) == Nap(writing, Scanning, {7}, {7}, false, false)
  {
  }

  lemma NapSleeps(writing: bool)
    ensures Apply(Nap(writing, Scanning, {7}, {7}, false, false), Sleep(0)) == Nap(writing, Asleep, {7}, {7}, false, false)
  {
  }

  lemma {:induction false} RunConcat(st: State, a: seq<Step>, b: seq<Step>)
    ensures Run(st, a + b) == Run(Run(st, a), b)
    decreases |a|
  {
    hide Apply;
    if a == [] {
      assert a + b == b;
    } else {
      assert (a + b)[1..] == a[1..] + b;
      RunConcat(Apply(st, a[0]), a[1..], b);
    }
  }

  lemma RunOne(st: State, step: Step)
    ensures Run(st, [step]) == Apply(st, step)
  {
    hide Apply;
    assert [step][1..] == [];
  }

  lemma FallsAsleep(writing: bool)
    ensures Run(IDLE, ToSleep(writing)) == Nap(writing, Asleep, {7}, {7}, false, false)
  {
    NapBegins(writing);
    NapTells(writing);
    NapScans(writing);
    NapSleeps(writing);
    hide Apply, Nap;
    var steps := ToSleep(writing);
    assert steps == [steps[0]] + ([Tell(0, 7)] + ([StartScan(0)] + ([Look(0, 7)] + [Sleep(0)])));
    hide Run;
    RunConcat(IDLE, [steps[0]], [Tell(0, 7)] + ([StartScan(0)] + ([Look(0, 7)] + [Sleep(0)])));
    RunOne(IDLE, steps[0]);
    var s1 := Nap(writing, Telling, {}, {}, false, false);
    RunConcat(s1, [Tell(0, 7)], [StartScan(0)] + ([Look(0, 7)] + [Sleep(0)]));
    RunOne(s1, Tell(0, 7));
    var s2 := Nap(writing, Telling, {7}, {}, false, false);
    RunConcat(s2, [StartScan(0)], [Look(0, 7)] + [Sleep(0)]);
    RunOne(s2, StartScan(0));
    var s3 := Nap(writing, Scanning, {7}, {}, false, false);
    RunConcat(s3, [Look(0, 7)], [Sleep(0)]);
    RunOne(s3, Look(0, 7));
    RunOne(Nap(writing, Scanning, {7}, {7}, false, false), Sleep(0));
  }

  /** Select 0 sleeps unsignalled on socket 7, which is ready, and no callback is under way. */
  ghost predicate Oversleeps(st: State) {
    && st.walks == map[] && 0 in st.selects && st.selects[0].phase.Asleep? && !st.selects[0].signalled
    && 7 in st.selects[0].Wanted() && 7 in st.socks && Ready(st.selects[0], 7, st.socks[7])
  }

  /** A reader that leaves data behind wakes nobody. */
  lemma LastdataWakesNobody()
    ensures Initial(IDLE) && Oversleeps(Run(IDLE, ToSleep(false) + [Keep(7, true)]))
  {
    FallsAsleep(false);
    var st := Nap(false, Asleep, {7}, {7}, false, false);
    assert Apply(st, Keep(7, true)) == Nap(false, Asleep, {7}, {7}, true, false);
    hide Run, ToSleep;
    RunConcat(IDLE, ToSleep(false), [Keep(7, true)]);
    RunOne(st, Keep(7, true));
  }

  /** Nor does `alloc_socket` when it marks a socket as writable that a select names already. */
  lemma AllocWakesNobody()
    ensures Initial(IDLE) && Oversleeps(Run(IDLE, ToSleep(true) + [InitSend(7, true)]))
  {
    FallsAsleep(true);
    var st := Nap(true, Asleep, {7}, {7}, false, false);
    assert Apply(st, InitSend(7, true)) == Nap(true, Asleep, {7}, {7}, false, true);
    hide Run, ToSleep;
    RunConcat(IDLE, ToSleep(true), [InitSend(7, true)]);
    RunOne(st, InitSend(7, true));
  }
}
