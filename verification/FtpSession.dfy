/** The FTP control session: an event-driven state machine whose callback may call back into it. */
module FtpSession {
  import opened Options
  import opened FtpMonitor
  import opened FtpMachine

  /** The status is that of an open session with these parts. */
  predicate Stands(s: Status, last: Option<Command>, replies: seq<nat>, logged: bool, op: Option<Op>) {
    s == Status(true, last, replies, logged, op, false)
  }

  /** What the log says of each state; `result` is the result about to be told. */
  ghost predicate Tied(s: Status, state: State, target: State, data: bool, result: Result) {
    match state
    case Closed => !data && (s == CLOSED || Stands(s, None, [], false, None))
    case Connected => !data && Stands(s, None, [], false, None)
    case UserSent => !data && Stands(s, Some(USER), [], false, None)
    case PassSent => !data && Stands(s, Some(PASS), [], false, None)
    case LoggedState => !data && s.open && s.logged && !s.quit && s.op.None? && s.replies != []
    case TypeSent => data && Target(target).Some? && Stands(s, Some(TYPE), [], true, Target(target))
    case PasvSent => data && Target(target).Some? && Stands(s, Some(PASV), [], true, Target(target))
    case Xfering => Target(target).Some? && Stands(s, Some(Deciding(Target(target).value)), [150], true, Target(target))
    case DataEnd => s.open && s.logged && !s.quit && s.op.Some? && s.replies != [] && (result.Ok? <==> Succeeded(s))
    case CmdEnd =>
      !data && s.open && s.logged && !s.quit && s.op.Some? && s.replies != [] && (result.Ok? <==> Succeeded(s))
    case Quit => s.open && !s.quit
    case QuitSent => s.open && s.quit && s.replies == []
    case Closing => s.open
    case RnfrSent => !data && Stands(s, Some(RNFR), [], true, Some(Move))
    case _ =>
      if Target(state).Some? then target == state && Stands(s, Some(Deciding(Target(state).value)), [], true, Target(state))
      else !data && Waiting(state).Some? && Stands(s, Some(Deciding(Waiting(state).value)), [], true, Waiting(state))
  }

  /** In use are exactly the connection blocks that the session holds, and they are two. */
  ghost predicate Held(pcbs: seq<Pcb>, control: Option<nat>, data: Option<nat>) {
    && (control.Some? ==> control.value < |pcbs|) && (data.Some? ==> data.value < |pcbs|)
    && (control.Some? ==> control != data)
    && forall i :: 0 <= i < |pcbs| ==> (pcbs[i].Live? <==> control == Some(i) || data == Some(i))
  }

  lemma OneMore(reply: nat)
    ensures [] + [reply] == [reply] && [150] + [reply] == [150, reply]
    ensures [reply] == [250] ==> reply == 250
    ensures [reply] == [257] ==> reply == 257
    ensures [150, reply] == [150, 226] ==> reply == 226
  {
    assert [reply][0] == reply && [150, reply][1] == reply;
  }

  /** At rest, with the log allowed. */
  ghost predicate AtRest(v: View) {
    && Resting(v.state) && Run(v.log).Some? && Tied(Run(v.log).value, v.state, v.target, v.data.Some?, ErrResponse)
    && (v.control.Some? <==> Run(v.log).value.open) && Held(v.pcbs, v.control, v.data)
  }

  /** Idle or closed, every operation has had its result; closed, every connection block is given back. */
  lemma Settled(v: View)
    requires AtRest(v)
    ensures Run(v.log).Some?
    ensures v.state == LoggedState || v.control.None? ==> Begins(v.log) == Finals(v.log) + Notices(v.log, true)
    ensures v.control.None? ==> Opens(v.log) == Notices(v.log, false) && forall i :: 0 <= i < |v.pcbs| ==> !v.pcbs[i].Live?
  {
    OneResultEach(v.log);
  }

  /** The states of a session before and after each of the events. */
  ghost predicate IsRun(events: seq<Event>, states: seq<View>) {
    && |states| == |events| + 1
    && (forall k :: 0 <= k < |states| ==> AtRest(states[k]))
    && (forall k :: 0 <= k < |events| ==> states[k + 1] == AfterEvent(states[k], events[k]))
    && (forall k :: 0 <= k < |events| ==> !NullUse(events[k], states[k].state, states[k].data))
  }

  lemma RunsOn(events: seq<Event>, states: seq<View>, e: Event, w: View)
    requires IsRun(events, states) && AtRest(w) && w == AfterEvent(states[|events|], e)
    requires !NullUse(e, states[|events|].state, states[|events|].data)
    ensures IsRun(events + [e], states + [w])
  {
    hide AfterEvent, AtRest, NullUse;
  }

  /** What the second step does. */
  ghost function Second(v: View, result: Result, told: Reaction): View {
    match v.state
    case DataEnd => Told(v, Final(result), told)
    case CmdEnd => Told(v, Final(result), told)
    case Quit => Told(v, Sent(QUIT), told)
    case Closing => Told(v, Notice(result), told)
    case _ => v
  }

  /** Where the session goes does not depend on where it was. */
  lemma ToldFrom(v: View, state: State, e: Entry, told: Reaction)
    requires e.Sent? || e.LoggedIn? || e.Final? || e.Notice?
    ensures Told(v.(state := state), e, told) == Told(v, e, told)
  {
    hide Reacted;
  }

  /** The first step has found `result` and gone from `v` to `w`: to a state that the second step goes on from, or to
      where the reply leads. */
  ghost predicate Found(v: View, reply: nat, parsed: bool, more: bool, told: Reaction, result: Result, w: View) {
    var e, got := OnReply(v.state, v.target, reply), Add(v, [Got(reply)]);
    if v.state == LoggedState then w == got
    else if Silent(v.state, reply) then w == Begun150(got, more)
    else if Resting(w.state) then
      w == if v.state == PasvSent && reply == 227 then Told(got, e, told).(dataOpen := parsed) else Told(got, e, told)
    else w == got.(state := w.state) && Pending(w.state, e, result) && (v.state == PasvSent ==> reply != 227)
  }

  /** What the second step has to do is `e`. */
  ghost predicate Pending(state: State, e: Entry, result: Result) {
    match state
    case DataEnd => e == Final(result)
    case CmdEnd => e == Final(result)
    case Quit => e == Sent(QUIT)
    case Closing => e == Notice(result)
    case _ => false
  }

  lemma FoundSent(v: View, reply: nat, parsed: bool, told: Reaction, e: Entry, w: View)
    requires e == OnReply(v.state, v.target, reply) && e.Sent? && v.state != LoggedState && !Silent(v.state, reply)
    requires var x := Entered(Add(v, [Got(reply)]), e);
      w == if v.state == PasvSent && reply == 227 then x.(dataOpen := parsed) else x
    ensures Found(v, reply, parsed, false, told, ErrResponse, w)
  {
    hide OnReply, Reacted;
  }

  lemma FoundPending(v: View, reply: nat, told: Reaction, result: Result, w: View)
    requires v.state != LoggedState && !Silent(v.state, reply) && (v.state == PasvSent ==> reply != 227)
    requires w == Add(v, [Got(reply)]).(state := w.state) && Pending(w.state, OnReply(v.state, v.target, reply), result)
    ensures Found(v, reply, false, false, told, result, w)
  {
    hide OnReply, Told;
  }

  lemma FoundWelcome(v: View, told: Reaction, w: View)
    requires v.state == PassSent && w == Told(Add(v, [Got(230)]), LoggedIn, told) && Resting(w.state)
    ensures Found(v, 230, false, false, told, ErrResponse, w)
  {
    hide Told;
  }

  /** Only PASV looks at `parsed`, and only a transfer at `more`. */
  lemma Regardless(v: View, reply: nat, parsed: bool, more: bool, p: bool, m: bool, told: Reaction, result: Result, w: View)
    requires Found(v, reply, parsed, more, told, result, w)
    requires v.state != PasvSent || reply != 227 || p == parsed
    requires Target(v.state).None? || m == more
    ensures Found(v, reply, p, m, told, result, w)
  {
    hide Told, Begun150, Pending, OnReply;
  }

  /** The second step goes on with what the first has found. */
  lemma Onward(v: View, reply: nat, parsed: bool, more: bool, told: Reaction, result: Result, w: View)
    requires Found(v, reply, parsed, more, told, result, w) && reply > 0
    ensures Second(w, result, told) == AfterReply(v, reply, parsed, more, told)
  {
    hide Told, WithoutData, OnReply;
    if !Resting(w.state) {
      ToldFrom(Add(v, [Got(reply)]), w.state, OnReply(v.state, v.target, reply), told);
    }
  }

  lemma Answered(s: Status, state: State, target: State, data: bool, reply: nat)
    requires Waiting(state).Some? && state != RnfrSent && Tied(s, state, target, data, ErrResponse)
    ensures s.open && Tied(Next(s, Got(reply)), CmdEnd, target, data, Verdict(state, reply))
  {
    OneMore(reply);
  }

  /** RNFR has been answered. */
  lemma Renamed(s: Status, target: State, data: bool)
    requires Tied(s, RnfrSent, target, data, ErrResponse)
    ensures s.open && MaySend(Next(s, Got(350)), RNTO)
    ensures Tied(Next(Next(s, Got(350)), Sent(RNTO)), RntoSent, target, data, ErrResponse)
  {
    assert Stands(s, Some(RNFR), [], true, Some(Move)) && !data;
    assert Stands(Next(Next(s, Got(350)), Sent(RNTO)), Some(RNTO), [], true, Some(Move));
  }

  lemma RnfrReply(target: State, reply: nat)
    ensures OnReply(RnfrSent, target, reply)
            == if reply == 350 then Sent(RNTO) else if reply == 550 then Final(ErrFilename) else Final(ErrResponse)
  {
  }

  lemma NotRenamed(s: Status, target: State, data: bool, reply: nat, result: Result)
    requires Tied(s, RnfrSent, target, data, ErrResponse) && !result.Ok?
    ensures s.open && Tied(Next(s, Got(reply)), CmdEnd, target, data, result)
  {
  }

  lemma MayQuit(s: Status, state: State, target: State, data: bool, result: Result)
    requires Tied(s, state, target, data, result) && s.open
    ensures MaySend(s, QUIT) && forall d :: Tied(Next(s, Sent(QUIT)), QuitSent, target, d, ErrResponse)
  {
  }

  /** PASV has been answered: the command of the operation may be sent. */
  lemma Passive(s: Status, target: State)
    requires Tied(s, PasvSent, target, true, ErrResponse)
    ensures s.open && Target(target).Some?
    ensures var c := Deciding(Target(target).value);
      && MaySend(Next(s, Got(227)), c)
      && forall data :: Tied(Next(Next(s, Got(227)), Sent(c)), target, target, data, ErrResponse)
  {
  }

  lemma GiveUp(s: Status, state: State, target: State, reply: nat)
    requires Tied(s, state, target, true, ErrResponse) && (state == TypeSent || state == PasvSent)
    ensures s.open && forall data :: Tied(Next(s, Got(reply)), Quit, target, data, ErrResponse)
  {
  }

  lemma SettingUp(s: Status, state: State, target: State, data: bool)
    requires Tied(s, state, target, data, ErrResponse) && (state == TypeSent || state == PasvSent)
    ensures data
  {
  }

  lemma TypeSet(s: Status, target: State)
    requires Tied(s, TypeSent, target, true, ErrResponse)
    ensures s.open && MaySend(Next(s, Got(200)), PASV)
    ensures Tied(Next(Next(s, Got(200)), Sent(PASV)), PasvSent, target, true, ErrResponse)
  {
  }

  class Session {
    var state: State
    var target: State
    var control: Option<nat>
    var data: Option<nat>
    /** The callbacks of the data connection are registered. */
    var dataOpen: bool
    var pcbs: seq<Pcb>
    var log: seq<Entry>

    ghost function Snapshot(): View
      reads this
    {
      View(state, target, control, data, dataOpen, pcbs, log)
    }

    /** Between the two steps of the state machine, with the result so far. */
    ghost predicate Midway(result: Result)
      reads this
    {
      && Run(log).Some? && Tied(Run(log).value, state, target, data.Some?, result)
      && (control.Some? <==> Run(log).value.open) && Held(pcbs, control, data)
      && (dataOpen ==> data.Some? && state != TypeSent && state != PasvSent)
    }

    /** At rest. */
    ghost predicate Valid()
      reads this
    {
      Resting(state) && Midway(ErrResponse)
    }

    constructor ()
      ensures Valid() && Snapshot() == FRESH
    {
      state, target, control, data, dataOpen, pcbs, log := Closed, Closed, None, None, false, [], [];
    }

    method Note(e: Entry)
      requires Run(log).Some? && Allowed(Run(log).value, e)
      modifies `log
      ensures log == old(log) + [e] && Run(log) == Some(Next(old(Run(log).value), e))
    {
      RunOn(log, e);
      log := log + [e];
    }

    /** `tcp_new` for the control connection. */
    method NewControl()
      requires Held(pcbs, control, data) && control.None?
      modifies `pcbs, `control
      ensures Held(pcbs, control, data) && control == Some(|old(pcbs)|) && pcbs == old(pcbs) + [Live]
    {
      control := Some(|pcbs|);
      pcbs := pcbs + [Live];
    }

    /** `tcp_new` for a data connection. */
    method NewData()
      requires Held(pcbs, control, data) && data.None?
      modifies `pcbs, `data
      ensures Held(pcbs, control, data) && data == Some(|old(pcbs)|) && pcbs == old(pcbs) + [Live]
    {
      data := Some(|pcbs|);
      pcbs := pcbs + [Live];
    }

    /** `lwftp_pcb_close`: only ever for a connection block in use. */
    method PcbClose(p: nat)
      requires p < |pcbs| && pcbs[p].Live?
      modifies `pcbs
      ensures pcbs == old(pcbs)[p := ClosedByUs]
    {
      pcbs := pcbs[p := ClosedByUs];
    }

    /** The stack reports an error: the connection block is gone. */
    method PcbDies(p: nat)
      requires p < |pcbs| && pcbs[p].Live?
      modifies `pcbs
      ensures pcbs == old(pcbs)[p := Dead]
    {
      pcbs := pcbs[p := Dead];
    }

    /** `lwftp_pcb_close` of the data connection, if there is one. */
    method CloseData()
      requires Held(pcbs, control, data)
      modifies `pcbs, `data, `dataOpen
      ensures Held(pcbs, control, data) && Snapshot() == WithoutData(old(Snapshot()), ClosedByUs)
    {
      if data.Some? {
        PcbClose(data.value);
        data := None;
      }
      dataOpen := false;
    }

    method CloseControl()
      requires Held(pcbs, control, data)
      modifies `pcbs, `control
      ensures Held(pcbs, control, data) && Snapshot() == WithoutControl(old(Snapshot()), ClosedByUs)
    {
      if control.Some? {
        PcbClose(control.value);
        control := None;
      }
    }

    /** `lwftp_control_close`. Without a result, which stands for -1, the callback is not told: that is only
        so when the connection could not even be started. */
    method ControlClose(result: Option<Result>, told: Reaction)
      requires Run(log).Some? && Held(pcbs, control, data)
      requires if result.Some? then Run(log).value.open else Run(log).value == CLOSED
      modifies this
      ensures Valid()
      ensures result.None? ==> Snapshot() == Shut(old(Snapshot()))
      ensures result.Some? ==> Snapshot() == Told(old(Snapshot()), Notice(result.value), told)
      decreases told, 4
    {
      hide Run, Held, Reacted;
      CloseData();
      CloseControl();
      state := Closed;
      if result.Some? {
        Note(Notice(result.value));
        Done(told);
      }
    }

    /** A call of `done_fn`. */
    method Done(told: Reaction)
      requires Valid()
      modifies this
      ensures Valid() && Snapshot() == Reacted(old(Snapshot()), told)
      decreases told, 2
    {
      hide Run, Held, Tied, AfterCall;
      var i := 0;
      while i < |told.calls|
        invariant 0 <= i <= |told.calls| && Valid() && Snapshot() == ReactedBy(old(Snapshot()), told, i)
      {
        Api(told.calls[i]);
        i := i + 1;
      }
    }

    /** The public interface. */
    method Api(c: Call)
      requires Valid()
      modifies this
      ensures Valid() && Snapshot() == AfterCall(old(Snapshot()), c)
      decreases c, 1
    {
      hide Run, Held, Tied, Reacted, CallScript;
      match c
      case Connect(args, pcb, connects, told) =>
        CallConnect(args, pcb, connects, told);
      case Operate(op, args, pcb, told) =>
        CallOperation(op, args, pcb, told);
      case Hangup =>
        Hang();
    }

    /** The end of a call of the interface: its return value is told to the callback as well. */
    method Return(r: Result, told: Reaction)
      requires Valid() && (r.InProgress? ==> Run(log).value.open)
      modifies this
      ensures Valid() && Snapshot() == Reacted(Add(old(Snapshot()), [Returned(r)]), told)
      decreases told, 5
    {
      hide Run, Held, Reacted;
      Note(Returned(r));
      Done(told);
    }

    /** `lwftp_connect`. */
    method CallConnect(args: bool, pcb: bool, connects: bool, told: Reaction)
      requires Valid()
      modifies this
      ensures Valid() && Snapshot() == AfterCall(old(Snapshot()), Connect(args, pcb, connects, told))
      decreases told, 6
    {
      hide Run, Held, Reacted;
      if state != Closed || control.Some? || data.Some? || !args {
        Return(ErrArgument, told);
        return;
      }
      if !pcb {
        Return(ErrMemory, told);
        return;
      }
      NewControl();
      if connects {
        Note(Opened);
        assert log + [Returned(InProgress)] == old(log) + [Opened, Returned(InProgress)];
        Return(InProgress, told);
      } else {
        ControlClose(None, told);
        assert pcbs == old(pcbs) + [ClosedByUs];
        Return(ErrUnknown, told);
      }
    }

    /** `lwftp_retrieve` and the other operations. */
    method CallOperation(op: Op, args: bool, pcb: bool, told: Reaction)
      requires Valid()
      modifies this
      ensures Valid() && Snapshot() == AfterCall(old(Snapshot()), Operate(op, args, pcb, told))
      decreases told, 6
    {
      hide Run, Held, Reacted;
      if state != LoggedState || !args || data.Some? {
        Return(ErrArgument, told);
        return;
      }
      if Transfers(op) {
        if !pcb {
          Return(ErrMemory, told);
          return;
        }
        NewData();
      }
      Start(op);
      assert log + [Returned(InProgress)] == old(log) + [Begun(op), Sent(First(op)), Returned(InProgress)];
      Return(InProgress, told);
    }

    /** `lwftp_start_RETR` and the like, run at once by `tcpip_callback`. The session is always logged in
        here, so the branch for an unexpected state has no counterpart. */
    method Start(op: Op)
      requires state == LoggedState && Run(log).Some? && Held(pcbs, control, data) && control.Some?
      requires Tied(Run(log).value, state, target, false, ErrResponse)
      requires !dataOpen && (data.Some? <==> Transfers(op))
      modifies `state, `target, `log
      ensures Valid() && log == old(log) + [Begun(op), Sent(First(op))] && state == StateFor(First(op))
      ensures target == if Transfers(op) then StateFor(Deciding(op)) else old(target)
    {
      hide Run, Held;
      Note(Begun(op));
      if Transfers(op) {
        StartTransfer(op);
      } else {
        StartCommand(op);
      }
    }

    method StartTransfer(op: Op)
      requires Run(log).Some? && Held(pcbs, control, data) && control.Some? && !dataOpen && data.Some? && Transfers(op)
      requires Run(log).value.open && Run(log).value.logged && !Run(log).value.quit && Run(log).value.op == Some(op)
      modifies `state, `target, `log
      ensures Valid() && log == old(log) + [Sent(TYPE)] && state == TypeSent && target == StateFor(Deciding(op))
    {
      hide Run, Held;
      Note(Sent(TYPE));
      state := TypeSent;
      target := match op case Retrieve => RetrSent case Store => StorSent case _ => MlsdSent;
    }

    method StartCommand(op: Op)
      requires Run(log).Some? && Held(pcbs, control, data) && control.Some? && !dataOpen && data.None? && !Transfers(op)
      requires Run(log).value.open && Run(log).value.logged && !Run(log).value.quit && Run(log).value.op == Some(op)
      modifies `state, `log
      ensures Valid() && log == old(log) + [Sent(First(op))] && state == StateFor(First(op))
    {
      hide Run, Held;
      Note(Sent(First(op)));
      state := match op
        case Delete => DeleSent
        case RemoveDir => RmdSent
        case ChangeDir => CwdSent
        case PrintDir => PwdSent
        case _ => RnfrSent;
    }

    /** `lwftp_close`. */
    method Hang()
      requires Valid()
      modifies `state, `log
      ensures Valid() && Snapshot() == AfterCall(old(Snapshot()), Hangup)
    {
      hide Run, Held, Tied, MaySend;
      OpenUnlessClosed(Snapshot());
      if state == Closed {
        return;
      }
      MayQuit(Run(log).value, state, target, data.Some?, ErrResponse);
      if control.Some? {
        Note(Sent(QUIT));
        state := QuitSent;
      }
    }

    // ---------------------------------------------------------------- the state machine

    /** A reply during the login. */
    method Login(reply: nat, told: Reaction)
      requires Valid() && reply > 0 && (state == Connected || state == UserSent || state == PassSent)
      modifies this
      ensures Midway(ErrResponse)
      ensures Found(old(Snapshot()), reply, false, false, told, ErrResponse, Snapshot())
      decreases told, 5
    {
      hide Run, Held, Found, Told;
      Note(Got(reply));
      if state == PassSent && reply == 230 {
        Welcome(told);
        FoundWelcome(old(Snapshot()), told, Snapshot());
        return;
      }
      if state == Connected && reply == 220 {
        Note(Sent(USER));
        state := UserSent;
        FoundSent(old(Snapshot()), reply, false, told, Sent(USER), Snapshot());
      } else if state == UserSent && reply == 331 {
        Note(Sent(PASS));
        state := PassSent;
        FoundSent(old(Snapshot()), reply, false, told, Sent(PASS), Snapshot());
      } else {
        state := Quit;
        FoundPending(old(Snapshot()), reply, told, ErrResponse, Snapshot());
      }
    }

    /** The login has gone well. */
    method Welcome(told: Reaction)
      requires Run(log).Some? && Stands(Run(log).value, Some(PASS), [230], true, None)
      requires control.Some? && data.None? && !dataOpen && Held(pcbs, control, data)
      modifies this
      ensures Valid() && Snapshot() == Told(old(Snapshot()), LoggedIn, told)
      decreases told, 4
    {
      hide Run, Held, Reacted;
      state := LoggedState;
      Note(LoggedIn);
      Done(told);
    }

    /** A reply while a data connection is set up. */
    method SetUp(reply: nat, parsed: bool, ghost told: Reaction)
      requires Valid() && reply > 0 && (state == TypeSent || state == PasvSent)
      modifies this
      ensures Midway(ErrResponse)
      ensures Found(old(Snapshot()), reply, old(state) == PasvSent && parsed, false, told, ErrResponse, Snapshot())
      ensures state == Quit <==> reply != if old(state) == TypeSent then 200 else 227
    {
      hide Run, Held, Tied, Found;
      if state == TypeSent {
        TypeAnswered(reply, told);
      } else {
        Opening(reply, parsed, told);
      }
    }

    method TypeAnswered(reply: nat, ghost told: Reaction)
      requires Valid() && reply > 0 && state == TypeSent
      modifies this
      ensures Midway(ErrResponse) && Found(old(Snapshot()), reply, false, false, told, ErrResponse, Snapshot())
      ensures state == Quit <==> reply != 200
    {
      hide Run, Held, Tied, MaySend, Found;
      SettingUp(Run(log).value, state, target, data.Some?);
      GiveUp(Run(log).value, state, target, reply);
      TypeSet(Run(log).value, target);
      Note(Got(reply));
      if reply == 200 {
        Note(Sent(PASV));
        state := PasvSent;
        FoundSent(old(Snapshot()), reply, false, told, Sent(PASV), Snapshot());
      } else {
        state := Quit;
        FoundPending(old(Snapshot()), reply, told, ErrResponse, Snapshot());
      }
    }

    /** The branch for an unexpected target is never taken. */
    method Opening(reply: nat, parsed: bool, ghost told: Reaction)
      requires Valid() && reply > 0 && state == PasvSent
      modifies this
      ensures Midway(ErrResponse) && Found(old(Snapshot()), reply, parsed, false, told, ErrResponse, Snapshot())
      ensures state == Quit <==> reply != 227
    {
      hide Run, Held, Tied, MaySend, Found;
      SettingUp(Run(log).value, state, target, data.Some?);
      GiveUp(Run(log).value, state, target, reply);
      Passive(Run(log).value, target);
      Note(Got(reply));
      if reply == 227 {
        ghost var c := Deciding(Target(target).value);
        dataOpen := parsed;
        if target == StorSent {
          Note(Sent(STOR));
        } else if target == RetrSent {
          Note(Sent(RETR));
        } else if target == MlsdSent {
          Note(Sent(MLSD));
        } else {
          assert false;
        }
        state := target;
        FoundSent(old(Snapshot()), reply, parsed, told, Sent(c), Snapshot());
      } else {
        state := Quit;
        FoundPending(old(Snapshot()), reply, told, ErrResponse, Snapshot());
        Regardless(old(Snapshot()), reply, false, false, parsed, false, told, ErrResponse, Snapshot());
      }
    }

    /** A reply to the command of a transfer; `ok` is false if the code uses a null pointer. */
    method BeginTransfer(reply: nat, more: bool, ghost told: Reaction) returns (result: Result, ok: bool)
      requires Valid() && reply > 0 && Target(state).Some?
      modifies this
      ensures Midway(result) && (ok <==> !(reply == 150 && old(state) == StorSent && old(data).None?))
      ensures Found(old(Snapshot()), reply, false, more, told, result, Snapshot())
    {
      hide Run, Held;
      Note(Got(reply));
      result, ok := ErrResponse, true;
      if reply == 150 {
        var storing := state == StorSent;
        state := Xfering;
        if storing {
          ok := SendNext(more);
        }
      } else {
        if state == RetrSent && reply == 550 {
          result := ErrFilename;
        }
        state := DataEnd;
      }
    }

    /** `lwftp_send_next_data`: at the end of the file the data connection is closed. The code looks at it first,
        without asking whether it is there. */
    method SendNext(more: bool) returns (ok: bool)
      requires Held(pcbs, control, data) && (dataOpen ==> data.Some?)
      modifies `pcbs, `data, `dataOpen
      ensures Held(pcbs, control, data) && (ok <==> old(data).Some?)
      ensures Snapshot() == if more then old(Snapshot()) else WithoutData(old(Snapshot()), ClosedByUs)
    {
      hide Held;
      if data.None? {
        return false;
      }
      if !more {
        CloseData();
      }
      return true;
    }

    /** The reply that ends a transfer. */
    method EndTransfer(reply: nat, ghost told: Reaction) returns (result: Result)
      requires Valid() && reply > 0 && state == Xfering
      modifies this
      ensures Midway(result) && Found(old(Snapshot()), reply, false, false, told, result, Snapshot())
    {
      hide Run, Held, Found;
      Note(Got(reply));
      OneMore(reply);
      result := if reply == 226 then Ok else ErrClosed;
      state := DataEnd;
      FoundPending(old(Snapshot()), reply, told, result, Snapshot());
    }

    /** A reply to one of the other commands. */
    method Answer(reply: nat, ghost told: Reaction) returns (result: Result)
      requires Valid() && reply > 0 && Waiting(state).Some?
      modifies this
      ensures Midway(result) && Found(old(Snapshot()), reply, false, false, told, result, Snapshot())
    {
      hide Run, Held, Tied;
      if state == RnfrSent {
        result := Renaming(reply, told);
        return;
      }
      Answered(Run(log).value, state, target, data.Some?, reply);
      Note(Got(reply));
      result := Verdict(state, reply);
      state := CmdEnd;
    }

    /** A reply to the first of the two commands of a renaming. */
    method Renaming(reply: nat, ghost told: Reaction) returns (result: Result)
      requires Valid() && reply > 0 && state == RnfrSent
      modifies this
      ensures Midway(result) && Found(old(Snapshot()), reply, false, false, told, result, Snapshot())
    {
      hide Run, Held, Found, Tied, MaySend, OnReply;
      RnfrReply(target, reply);
      if reply == 350 {
        RenameTo(told);
        return ErrResponse;
      }
      result := if reply == 550 then ErrFilename else ErrResponse;
      NotRenamed(Run(log).value, target, data.Some?, reply, result);
      Note(Got(reply));
      state := CmdEnd;
      FoundPending(old(Snapshot()), reply, told, result, Snapshot());
    }

    method RenameTo(ghost told: Reaction)
      requires Valid() && state == RnfrSent
      modifies `state, `log
      ensures Midway(ErrResponse) && Found(old(Snapshot()), 350, false, false, told, ErrResponse, Snapshot())
    {
      hide Run, Held, Found, Tied, MaySend, OnReply;
      RnfrReply(target, 350);
      Renamed(Run(log).value, target, data.Some?);
      Note(Got(350));
      Note(Sent(RNTO));
      state := RntoSent;
      FoundSent(old(Snapshot()), 350, false, told, Sent(RNTO), Snapshot());
    }

    /** The end of an operation: the session is logged in again, and the callback is told the result. */
    method Finish(result: Result, told: Reaction)
      requires Midway(result) && (state == DataEnd || state == CmdEnd)
      modifies this
      ensures Valid() && Snapshot() == Told(old(Snapshot()), Final(result), told)
      decreases told, 4
    {
      hide Run, Held, Reacted;
      if state == DataEnd {
        CloseData();
      }
      state := LoggedState;
      Note(Final(result));
      Done(told);
    }

    lemma QuitOpen(v: View, result: Result)
      requires Midway(result) && v == Snapshot() && (state == Quit || state == Closing)
      ensures Run(log).value.open && control.Some?
    {
    }

    lemma NoResult(v: View, result: Result)
      requires Midway(result) && v == Snapshot() && Resting(state)
      ensures Midway(ErrResponse)
    {
    }

    method SendQuit(ghost result: Result, ghost told: Reaction)
      requires Midway(result) && state == Quit
      modifies `state, `log
      ensures Valid() && Snapshot() == Told(old(Snapshot()), Sent(QUIT), told)
    {
      hide Run, Held, Tied, MaySend;
      QuitOpen(Snapshot(), result);
      MayQuit(Run(log).value, state, target, data.Some?, result);
      Note(Sent(QUIT));
      state := QuitSent;
    }

    /** The second step of the state machine. */
    method SecondStep(result: Result, told: Reaction)
      requires Midway(result)
      modifies this
      ensures Valid() && Snapshot() == Second(old(Snapshot()), result, told)
      decreases told, 5
    {
      hide Run, Held, Told, Tied;
      if state == Quit || state == Closing {
        QuitOpen(Snapshot(), result);
      }
      if Resting(state) {
        NoResult(Snapshot(), result);
      }
      match state
      case DataEnd =>
        Finish(result, told);
      case CmdEnd =>
        Finish(result, told);
      case Quit =>
        SendQuit(result, told);
      case Closing =>
        ControlClose(Some(result), told);
      case _ =>
    }

    /** The first step of the state machine. */
    method FirstStep(reply: nat, parsed: bool, more: bool, told: Reaction) returns (result: Result, ok: bool)
      requires Valid() && reply > 0 && state != Closed
      modifies this
      ensures Midway(result) && (ok <==> !(reply == 150 && old(state) == StorSent && old(data).None?))
      ensures Second(Snapshot(), result, told) == AfterReply(old(Snapshot()), reply, parsed, more, told)
      decreases told, 6
    {
      hide Run, Held, Tied, Found, Second, AfterReply, Midway;
      ghost var v := Snapshot();
      result, ok := ErrResponse, true;
      if state == Connected || state == UserSent || state == PassSent {
        Login(reply, told);
      } else if state == TypeSent || state == PasvSent {
        SetUp(reply, parsed, told);
      } else if Target(state).Some? {
        result, ok := BeginTransfer(reply, more, told);
      } else if state == Xfering {
        result := EndTransfer(reply, told);
      } else if Waiting(state).Some? {
        result := Answer(reply, told);
      } else {
        result := Other(reply, told);
      }
      ghost var p, m := v.state == PasvSent && parsed, Target(v.state).Some? && more;
      Regardless(v, reply, p, m, parsed, more, told, result, Snapshot());
      Onward(v, reply, parsed, more, told, result, Snapshot());
    }

    /** A reply to QUIT, or one that nothing waits for. */
    method Other(reply: nat, ghost told: Reaction) returns (result: Result)
      requires Valid() && reply > 0 && (state == LoggedState || state == QuitSent)
      modifies this
      ensures Midway(result) && Found(old(Snapshot()), reply, false, false, told, result, Snapshot())
    {
      hide Run, Held;
      Note(Got(reply));
      result := ErrResponse;
      if state == QuitSent {
        result := if reply == 221 then Ok else ErrUnknown;
        state := Closing;
      }
    }

    /** `lwftp_control_process`; a `reply` of 0 stands for text without a number, or for none. */
    method Process(reply: nat, parsed: bool, more: bool, told: Reaction) returns (ok: bool)
      requires Midway(ErrResponse) && (Resting(state) || (state == DataEnd && reply == 0))
      requires reply > 0 ==> state != Closed
      modifies this
      ensures Valid() && (ok <==> !(reply == 150 && old(state) == StorSent && old(data).None?))
      ensures Resting(old(state)) ==> Snapshot() == AfterReply(old(Snapshot()), reply, parsed, more, told)
      ensures old(state) == DataEnd ==> Snapshot() == Told(old(Snapshot()), Final(ErrResponse), told)
      decreases told, 7
    {
      hide Run, Held, Tied, Told;
      var result := ErrResponse;
      ok := true;
      if reply > 0 {
        result, ok := FirstStep(reply, parsed, more, told);
      }
      SecondStep(result, told);
    }

    // ---------------------------------------------------------------- events

    /** `lwftp_data_err`. */
    method DataFailed(told: Reaction)
      requires Valid() && dataOpen
      modifies this
      ensures Valid() && Snapshot() == AfterEvent(old(Snapshot()), DataError(told))
      decreases told, 8
    {
      hide Run, Held, Reacted;
      DropData();
      if state == Xfering {
        state := DataEnd;
        ToldFrom(WithoutData(old(Snapshot()), Dead), DataEnd, Final(ErrResponse), told);
        var ok := Process(0, false, false, told);
      }
    }

    method DropData()
      requires Held(pcbs, control, data) && data.Some?
      modifies `pcbs, `data, `dataOpen
      ensures Held(pcbs, control, data) && Snapshot() == WithoutData(old(Snapshot()), Dead)
    {
      PcbDies(data.value);
      data := None;
      dataOpen := false;
    }

    /** `lwftp_control_connected`. */
    method Establish()
      requires Valid() && state == Closed && control.Some?
      modifies `state
      ensures Valid() && state == Connected
    {
      hide Run, Held;
      state := Connected;
    }

    /** `lwftp_control_err`. */
    method ControlFailed(told: Reaction)
      requires Valid() && control.Some?
      modifies this
      ensures Valid() && Snapshot() == AfterEvent(old(Snapshot()), ControlError(told))
    {
      hide Run, Held, Tied, Told;
      var result := if state == Closed then ErrConnect else ErrClosed;
      DropControl();
      ControlClose(Some(result), told);
    }

    method DropControl()
      requires Held(pcbs, control, data) && control.Some?
      modifies `pcbs, `control
      ensures Held(pcbs, control, data) && Snapshot() == WithoutControl(old(Snapshot()), Dead)
    {
      PcbDies(control.value);
      control := None;
    }

    /** One event, where the stack can raise it; `ok` is false if the code uses a null pointer. */
    method Happen(e: Event) returns (ok: bool)
      requires Valid()
      modifies this
      ensures Valid() && Snapshot() == AfterEvent(old(Snapshot()), e)
      ensures ok <==> !NullUse(e, old(state), old(data))
    {
      hide Run, Held, Tied, AfterReply, AfterCall, Told;
      ok := true;
      OpenUnlessClosed(Snapshot());
      match e
      case Established =>
        if state == Closed && control.Some? {
          Establish();
        }
      case Reply(reply, parsed, more, told) =>
        if control.Some? && state != Closed {
          ok := Process(reply, parsed, more, told);
        }
      case Hung(error, told) =>
        if control.Some? {
          ControlClose(Some(if error then ErrUnknown else ErrClosed), told);
        }
      case ControlError(told) =>
        if control.Some? {
          ControlFailed(told);
        }
      case DataError(told) =>
        if dataOpen {
          DataFailed(told);
        }
      case DataReceived(last) =>
        if dataOpen && last {
          LoseData();
        }
      case DataSent(more) =>
        if dataOpen {
          ok := LoseDataUnless(more);
        }
      case User(call) =>
        Api(call);
    }

    lemma OpenUnlessClosed(v: View)
      requires Valid() && v == Snapshot()
      ensures state != Closed ==> control.Some?
    {
    }

    /** The end of the data connection on its own. */
    method LoseData()
      requires Valid() && dataOpen
      modifies `pcbs, `data, `dataOpen
      ensures Valid() && Snapshot() == WithoutData(old(Snapshot()), ClosedByUs)
    {
      hide Run, Held;
      CloseData();
    }

    method LoseDataUnless(more: bool) returns (ok: bool)
      requires Valid() && dataOpen
      modifies `pcbs, `data, `dataOpen
      ensures Valid() && ok && Snapshot() == if more then old(Snapshot()) else WithoutData(old(Snapshot()), ClosedByUs)
    {
      hide Run, Held;
      ok := SendNext(more);
    }

    /** Every run, up to the first event, if any, at which the code uses a null pointer: each event does what the table
        says and leaves the log allowed; when the session is idle or closed each operation has got one result; and
        connection blocks that the session does not hold are all closed or dead. */
    method Drive(events: seq<Event>) returns (n: nat, ghost states: seq<View>)
      requires Valid()
      modifies this
      ensures Valid() && n <= |events| && IsRun(events[..n], states) && states[0] == old(Snapshot())
      ensures n == |events| ==> states[n] == Snapshot()
      ensures n < |events| ==> NullUse(events[n], states[n].state, states[n].data)
                               && Snapshot() == AfterEvent(states[n], events[n])
      ensures state == LoggedState || control.None? ==> Begins(log) == Finals(log) + Notices(log, true)
      ensures control.None? ==> Opens(log) == Notices(log, false) && forall i :: 0 <= i < |pcbs| ==> !pcbs[i].Live?
    {
      hide Run, Held, Tied, AtRest, AfterEvent, NullUse;
      states := [Snapshot()];
      n := 0;
      assert events[..0] == [];
      Rests(Snapshot());
      while n < |events|
        invariant 0 <= n <= |events| && Valid() && AtRest(Snapshot())
        invariant IsRun(events[..n], states) && states[0] == old(Snapshot()) && states[n] == Snapshot()
      {
        var ok := Happen(events[n]);
        Rests(Snapshot());
        if !ok {
          break;
        }
        RunsOn(events[..n], states, events[n], Snapshot());
        assert events[..n] + [events[n]] == events[..n + 1];
        states := states + [Snapshot()];
        n := n + 1;
      }
      Settled(Snapshot());
    }

    lemma Rests(v: View)
      requires Valid() && v == Snapshot()
      ensures AtRest(v)
    {
    }
  }

  /** A run in which the reply that starts an upload finds no data connection. */
  method LostUpload() returns (s: Session, n: nat, ghost states: seq<View>)
    ensures n == |LOST_UPLOAD| && IsRun(LOST_UPLOAD, states) && states[0] == FRESH
    ensures NullUse(Says(150), states[n].state, states[n].data)
  {
    hide AfterEvent, AtRest, Begins, Finals, Notices, Opens, Run;
    s := new Session();
    var events := LOST_UPLOAD + [Says(150)];
    n, states := s.Drive(events);
    assert n >= 9;
    assert events[..9] == LOST_UPLOAD;
    UploadIsLost(states);
  }
}
