/** What each event means, told by the log of the connection alone, without the states of the client: which entry is due
    at once on a reply (section 5.4 of RFC 959), and for what reason any entry was made. Every run follows it. */
module FtpProtocol {
  import opened Options
  import opened FtpMonitor
  import opened FtpMachine
  import opened FtpSession

  // ---------------------------------------------------------------- what is due

  /** The result of an operation that ends with the replies to its last command. */
  function Outcome(op: Op, last: Command, replies: seq<nat>): Result {
    if last == Deciding(op) && replies == Success(op) then Ok
    else if |replies| > 1 then ErrClosed
    else if replies == [550] && (last.RETR? || last.DELE? || last.RMD? || last.CWD? || last.RNFR?) then ErrFilename
    else ErrResponse
  }

  /** What is due at once on the reply that has just come, if anything. */
  function Due(s: Status): Option<Entry> {
    if s.quit then Some(Notice(if s.replies == [221] then Ok else ErrUnknown))
    else if !s.logged then
      Some(Sent(if s.last.None? && s.replies == [220] then USER
                else if s.last == Some(USER) && s.replies == [331] then PASS
                else QUIT))
    else if s.op.None? || s.last.None? then if s.last == Some(PASS) && s.replies == [230] then Some(LoggedIn) else None
    else if s.last == Some(TYPE) then Some(Sent(if s.replies == [200] then PASV else QUIT))
    else if s.last == Some(PASV) then Some(Sent(if s.replies == [227] then Deciding(s.op.value) else QUIT))
    else if s.last == Some(RNFR) && s.replies == [350] then Some(Sent(RNTO))
    else if Transfers(s.op.value) && s.replies == [150] then None
    else Some(Final(Outcome(s.op.value, s.last.value, s.replies)))
  }

  /** What is due on entry `k` of the log. */
  function DueOn(log: seq<Entry>, k: nat): Option<Entry>
    requires k < |log|
  {
    var s := Run(log[..k + 1]);
    if log[k].Got? && s.Some? then Due(s.value) else None
  }

  /** Whatever is due follows at once. */
  ghost predicate Dutiful(log: seq<Entry>) {
    forall k :: 0 <= k < |log| && DueOn(log, k).Some? ==> k + 1 < |log| && log[k + 1] == DueOn(log, k).value
  }

  /** Entry `k` was due. */
  ghost predicate WasDue(log: seq<Entry>, k: nat) {
    0 < k < |log| && DueOn(log, k - 1) == Some(log[k])
  }

  /** Data is being transferred. */
  predicate Transferring(s: Status) {
    s.op.Some? && Transfers(s.op.value) && s.last == Some(Deciding(s.op.value)) && s.replies == [150]
  }

  /** Why entry `k` was made. `hangs`: the user may hang up. */
  ghost predicate Reasoned(log: seq<Entry>, k: nat, hangs: bool)
    requires k < |log|
  {
    match log[k]
    case Sent(c) =>
      || WasDue(log, k)
      || (0 < k && log[k - 1].Begun? && c == First(log[k - 1].op))
      || (hangs && c.QUIT?)
    case LoggedIn => WasDue(log, k)
    case Final(r) => WasDue(log, k) || (r == ErrResponse && Run(log[..k]).Some? && Transferring(Run(log[..k]).value))
    case Notice(r) => WasDue(log, k) || r == ErrConnect || r == ErrClosed || r == ErrUnknown
    case _ => true
  }

  ghost predicate AllReasoned(log: seq<Entry>, hangs: bool) {
    forall k :: 0 <= k < |log| ==> Reasoned(log, k, hangs)
  }

  // ---------------------------------------------------------------- longer logs

  lemma DueStays(log: seq<Entry>, more: seq<Entry>, k: nat)
    requires k < |log|
    ensures DueOn(log + more, k) == DueOn(log, k)
  {
    assert (log + more)[..k + 1] == log[..k + 1];
  }

  lemma ReasonStays(log: seq<Entry>, more: seq<Entry>, k: nat, hangs: bool)
    requires k < |log| && Reasoned(log, k, hangs)
    ensures Reasoned(log + more, k, hangs)
  {
    hide DueOn;
    assert (log + more)[..k] == log[..k];
    if 0 < k {
      DueStays(log, more, k - 1);
    }
  }

  lemma DueOnReply(log: seq<Entry>, k: nat)
    requires k < |log|
    ensures DueOn(log, k).Some? ==> log[k].Got?
  {
  }

  lemma DutyStays(log: seq<Entry>, more: seq<Entry>)
    requires Dutiful(log) && forall k :: 0 <= k < |more| ==> !more[k].Got?
    ensures Dutiful(log + more)
  {
    hide DueOn;
    var all := log + more;
    forall j | |log| <= j < |all|
      ensures !all[j].Got?
    {
      assert all[j] == more[j - |log|];
    }
    forall k | 0 <= k < |all| && DueOn(all, k).Some?
      ensures k + 1 < |all| && all[k + 1] == DueOn(all, k).value
    {
      DueOnReply(all, k);
      DueStays(log, more, k);
    }
  }

  lemma DueOnLast(log: seq<Entry>, reply: nat, more: seq<Entry>)
    requires Run(log + [Got(reply)]).Some?
    ensures DueOn(log + [Got(reply)] + more, |log|) == Due(Run(log + [Got(reply)]).value)
  {
    hide Due, Run;
    assert (log + [Got(reply)] + more)[..|log| + 1] == log + [Got(reply)];
  }

  /** A reply, with what is due on it. */
  lemma DutyDone(log: seq<Entry>, reply: nat, due: seq<Entry>)
    requires Dutiful(log) && Run(log + [Got(reply)]).Some?
    requires var d := Due(Run(log + [Got(reply)]).value); if d.Some? then due == [d.value] else due == []
    requires forall k :: 0 <= k < |due| ==> !due[k].Got?
    ensures Dutiful(log + [Got(reply)] + due)
  {
    hide DueOn, Due, Run;
    var all := log + [Got(reply)] + due;
    assert all == log + ([Got(reply)] + due);
    DueOnLast(log, reply, due);
    forall j | |log| < j < |all|
      ensures !all[j].Got?
    {
      assert all[j] == due[j - |log| - 1];
    }
    forall k | 0 <= k < |all| && DueOn(all, k).Some?
      ensures k + 1 < |all| && all[k + 1] == DueOn(all, k).value
    {
      DueOnReply(all, k);
      if k < |log| {
        DueStays(log, [Got(reply)] + due, k);
      }
    }
  }

  // ---------------------------------------------------------------- the calls of the callback

  /** There is no hanging up in it. */
  predicate NoHangup(told: Reaction) {
    forall c :: c in told.calls ==> !c.Hangup? && NoHangup(c.told)
  }

  predicate Hangs(c: Call) {
    c.Hangup? || !NoHangup(c.told)
  }

  predicate EventHangs(e: Event) {
    match e
    case Reply(_, _, _, told) => !NoHangup(told)
    case Hung(_, told) => !NoHangup(told)
    case ControlError(told) => !NoHangup(told)
    case DataError(told) => !NoHangup(told)
    case User(call) => Hangs(call)
    case _ => false
  }

  /** The log has grown, and whatever was due has followed, and every entry has its reason. */
  ghost predicate Grows(log: seq<Entry>, log': seq<Entry>, hangs: bool) {
    && log <= log'
    && (Dutiful(log) ==> Dutiful(log'))
    && (AllReasoned(log, hangs) ==> AllReasoned(log', hangs))
  }

  lemma GrowsBy(log: seq<Entry>, more: seq<Entry>, hangs: bool)
    requires forall k :: |log| <= k < |log + more| ==> !(log + more)[k].Got? && Reasoned(log + more, k, hangs)
    ensures Grows(log, log + more, hangs)
  {
    hide DueOn, Reasoned;
    forall k | 0 <= k < |more|
      ensures !more[k].Got?
    {
      assert more[k] == (log + more)[|log| + k];
    }
    if Dutiful(log) {
      DutyStays(log, more);
    }
    if AllReasoned(log, hangs) {
      forall k | 0 <= k < |log + more|
        ensures Reasoned(log + more, k, hangs)
      {
        if k < |log| {
          ReasonStays(log, more, k, hangs);
        }
      }
    }
  }

  lemma CallGrows(v: View, c: Call, hangs: bool)
    requires c.Hangup? ==> hangs
    ensures Grows(v.log, Called(v, c).log, hangs)
  {
    hide Run, Grows, WasDue;
    var more := CallScript(c, v.state, v.control);
    var all := v.log + more;
    forall k | |v.log| <= k < |all|
      ensures !all[k].Got? && Reasoned(all, k, hangs)
    {
      assert all[k] == more[k - |v.log|] && (k > |v.log| ==> all[k - 1] == more[k - 1 - |v.log|]);
    }
    GrowsBy(v.log, more, hangs);
  }

  lemma GrowsOn(a: seq<Entry>, b: seq<Entry>, c: seq<Entry>, hangs: bool)
    requires Grows(a, b, hangs) && Grows(b, c, hangs)
    ensures Grows(a, c, hangs)
  {
    hide Dutiful, AllReasoned;
  }

  lemma {:induction false} CallsGrow(v: View, c: Call, hangs: bool)
    requires Hangs(c) ==> hangs
    ensures Grows(v.log, AfterCall(v, c).log, hangs)
    decreases c, 0
  {
    hide Grows, Called;
    CallGrows(v, c, hangs);
    if !c.Hangup? {
      ReactionGrows(Called(v, c), c.told, |c.told.calls|, hangs);
      assert AfterCall(v, c) == ReactedBy(Called(v, c), c.told, |c.told.calls|);
      GrowsOn(v.log, Called(v, c).log, AfterCall(v, c).log, hangs);
    }
  }

  lemma {:induction false} ReactionGrows(v: View, told: Reaction, n: nat, hangs: bool)
    requires n <= |told.calls| && (!NoHangup(told) ==> hangs)
    ensures Grows(v.log, ReactedBy(v, told, n).log, hangs)
    decreases told, n
  {
    hide AfterCall;
    if n == 0 {
      assert v.log <= v.log;
    } else {
      hide Dutiful, AllReasoned;
      ReactionGrows(v, told, n - 1, hangs);
      assert told.calls[n - 1] in told.calls;
      CallsGrow(ReactedBy(v, told, n - 1), told.calls[n - 1], hangs);
      GrowsOn(v.log, ReactedBy(v, told, n - 1).log, ReactedBy(v, told, n).log, hangs);
    }
  }

  /** An entry that is told to the callback. */
  lemma ToldGrows(v: View, e: Entry, told: Reaction, hangs: bool)
    requires (!NoHangup(told) ==> hangs) && !e.Got? && Reasoned(v.log + [e], |v.log|, hangs)
    ensures Grows(v.log, Told(v, e, told).log, hangs)
  {
    hide Grows, Reasoned, Run;
    GrowsBy(v.log, [e], hangs);
    assert Entered(v, e).log == v.log + [e];
    ReactionGrows(Entered(v, e), told, |told.calls|, hangs);
    GrowsOn(v.log, Entered(v, e).log, Reacted(Entered(v, e), told).log, hangs);
  }

  // ---------------------------------------------------------------- replies

  /** The client, at rest, has nothing due but on the next reply. */
  lemma ReplyDue(v: View, reply: nat)
    requires AtRest(v) && v.control.Some? && v.state != Closed && reply > 0
    ensures Run(v.log + [Got(reply)]) == Some(Next(Run(v.log).value, Got(reply)))
    ensures var d := Due(Next(Run(v.log).value, Got(reply)));
      if v.state == LoggedState || Silent(v.state, reply) then d.None? else d == Some(OnReply(v.state, v.target, reply))
  {
    RunOn(v.log, Got(reply));
    hide Run, Held;
    DueIs(Run(v.log).value, v.state, v.target, v.data.Some?, reply);
  }

  lemma DueIs(s: Status, state: State, target: State, data: bool, reply: nat)
    requires Resting(state) && state != Closed && Tied(s, state, target, data, ErrResponse)
    ensures var d := Due(Next(s, Got(reply)));
      if state == LoggedState || Silent(state, reply) then d.None? else d == Some(OnReply(state, target, reply))
  {
    hide Due, OnReply;
    if state == Connected || state == UserSent || state == PassSent {
      LoginDue(s, state, target, data, reply);
    } else if state == TypeSent || state == PasvSent {
      SetUpDue(s, state, target, data, reply);
    } else if state == LoggedState || state == QuitSent {
      OtherDue(s, state, target, data, reply);
    } else if Target(state).Some? || state == Xfering {
      TransferDue(s, state, target, data, reply);
    } else {
      CommandDue(s, state, target, data, reply);
    }
  }

  lemma LoginDue(s: Status, state: State, target: State, data: bool, reply: nat)
    requires (state == Connected || state == UserSent || state == PassSent) && Tied(s, state, target, data, ErrResponse)
    ensures Due(Next(s, Got(reply))) == Some(OnReply(state, target, reply))
  {
    OneMore(reply);
    hide Outcome, Deciding;
    assert [reply][0] == reply;
  }

  lemma SetUpDue(s: Status, state: State, target: State, data: bool, reply: nat)
    requires (state == TypeSent || state == PasvSent) && Tied(s, state, target, data, ErrResponse)
    ensures Due(Next(s, Got(reply))) == Some(OnReply(state, target, reply))
  {
    OneMore(reply);
    hide Outcome, Deciding;
    assert [reply][0] == reply;
  }

  lemma OtherDue(s: Status, state: State, target: State, data: bool, reply: nat)
    requires (state == LoggedState || state == QuitSent) && Tied(s, state, target, data, ErrResponse)
    ensures var d := Due(Next(s, Got(reply))); if state == LoggedState then d.None? else d == Some(OnReply(state, target, reply))
  {
    assert |s.replies + [reply]| > 1 || s.replies + [reply] == [reply];
    assert [reply][0] == reply;
  }

  lemma TransferDue(s: Status, state: State, target: State, data: bool, reply: nat)
    requires (Target(state).Some? || state == Xfering) && Tied(s, state, target, data, ErrResponse)
    ensures var d := Due(Next(s, Got(reply))); if Silent(state, reply) then d.None? else d == Some(OnReply(state, target, reply))
  {
    hide Due, Outcome, OnReply;
    var op := if state == Xfering then Target(target).value else Target(state).value;
    DataDue(s, op, reply);
    DataIs(state, target, op, reply);
  }

  lemma DataDue(s: Status, op: Op, reply: nat)
    requires Transfers(op) && (Stands(s, Some(Deciding(op)), [], true, Some(op)) || Stands(s, Some(Deciding(op)), [150], true, Some(op)))
    ensures Due(Next(s, Got(reply)))
            == if s.replies == [] && reply == 150 then None else Some(Final(Outcome(op, Deciding(op), s.replies + [reply])))
  {
    hide Outcome;
    assert [] + [reply] == [reply] && [150] + [reply] == [150, reply];
    assert [reply][0] == reply;
  }

  lemma DataIs(state: State, target: State, op: Op, reply: nat)
    requires if state == Xfering then Target(target) == Some(op) else Target(state) == Some(op)
    ensures !Silent(state, reply) ==>
      OnReply(state, target, reply) == Final(Outcome(op, Deciding(op), (if state == Xfering then [150] else []) + [reply]))
  {
    OneMore(reply);
    assert [reply][0] == reply;
  }

  lemma CommandDue(s: Status, state: State, target: State, data: bool, reply: nat)
    requires Waiting(state).Some? && Tied(s, state, target, data, ErrResponse)
    ensures Due(Next(s, Got(reply))) == Some(OnReply(state, target, reply))
  {
    hide Due, Outcome, OnReply;
    assert [] + [reply] == [reply];
    assert [reply][0] == reply;
    if state == RnfrSent {
      RenameDue(s, target, reply);
    } else {
      var op := Waiting(state).value;
      FinalDue(s, op, reply);
      FinalIs(state, target, op, reply);
    }
  }

  lemma FinalDue(s: Status, op: Op, reply: nat)
    requires Stands(s, Some(Deciding(op)), [], true, Some(op)) && !Transfers(op)
    ensures Due(Next(s, Got(reply))) == Some(Final(Outcome(op, Deciding(op), [reply])))
  {
    hide Outcome;
    assert [] + [reply] == [reply];
  }

  lemma FinalIs(state: State, target: State, op: Op, reply: nat)
    requires Waiting(state) == Some(op) && state != RnfrSent
    ensures OnReply(state, target, reply) == Final(Outcome(op, Deciding(op), [reply]))
  {
    assert [reply][0] == reply;
    assert [reply] != [150, 226];
  }

  lemma RenameDue(s: Status, target: State, reply: nat)
    requires Stands(s, Some(RNFR), [], true, Some(Move))
    ensures Due(Next(s, Got(reply))) == Some(OnReply(RnfrSent, target, reply))
  {
    assert [] + [reply] == [reply];
    assert [reply][0] == reply;
  }

  lemma GotGrows(log: seq<Entry>, reply: nat, due: seq<Entry>, hangs: bool)
    requires Run(log + [Got(reply)]).Some?
    requires var d := Due(Run(log + [Got(reply)]).value); if d.Some? then due == [d.value] else due == []
    ensures Grows(log, log + [Got(reply)] + due, hangs)
  {
    DueEntry(Run(log + [Got(reply)]).value);
    hide Due, Run, DueOn;
    var all := log + [Got(reply)] + due;
    assert all == log + ([Got(reply)] + due);
    if Dutiful(log) {
      DutyDone(log, reply, due);
    }
    DueOnLast(log, reply, due);
    if AllReasoned(log, hangs) {
      forall k | 0 <= k < |all|
        ensures Reasoned(all, k, hangs)
      {
        if k < |log| {
          ReasonStays(log, [Got(reply)] + due, k, hangs);
        }
      }
    }
  }

  lemma DueEntry(s: Status)
    ensures var d := Due(s); d.Some? ==> d.value.Sent? || d.value.LoggedIn? || d.value.Final? || d.value.Notice?
  {
  }

  lemma ReplyGrows(v: View, reply: nat, parsed: bool, more: bool, told: Reaction, hangs: bool)
    requires AtRest(v) && v.control.Some? && v.state != Closed && reply > 0 && (!NoHangup(told) ==> hangs)
    ensures Grows(v.log, AfterReply(v, reply, parsed, more, told).log, hangs)
  {
    hide Due, Run, OnReply, Grows, AtRest;
    ReplyDue(v, reply);
    if v.state == LoggedState || Silent(v.state, reply) {
      GotGrows(v.log, reply, [], hangs);
      assert v.log + [Got(reply)] + [] == v.log + [Got(reply)];
    } else {
      var w, e := Add(v, [Got(reply)]), OnReply(v.state, v.target, reply);
      GotGrows(v.log, reply, [e], hangs);
      assert Entered(w, e).log == v.log + [Got(reply)] + [e];
      ReactionGrows(Entered(w, e), told, |told.calls|, hangs);
      GrowsOn(v.log, Entered(w, e).log, Reacted(Entered(w, e), told).log, hangs);
    }
  }

  lemma NoticeGrows(v: View, r: Result, told: Reaction, hangs: bool)
    requires (r == ErrConnect || r == ErrClosed || r == ErrUnknown) && (!NoHangup(told) ==> hangs)
    ensures Grows(v.log, Told(v, Notice(r), told).log, hangs)
  {
    hide Grows, Told, Run, WasDue;
    ToldGrows(v, Notice(r), told, hangs);
  }

  lemma FailureGrows(v: View, told: Reaction, hangs: bool)
    requires AtRest(v) && v.state == Xfering && (!NoHangup(told) ==> hangs)
    ensures Grows(v.log, Told(WithoutData(v, Dead), Final(ErrResponse), told).log, hangs)
  {
    hide Grows, Told, Run, Held, WasDue;
    var w := WithoutData(v, Dead);
    assert (w.log + [Final(ErrResponse)])[..|w.log|] == v.log;
    ToldGrows(w, Final(ErrResponse), told, hangs);
  }

  lemma SameGrows(log: seq<Entry>, hangs: bool)
    ensures Grows(log, log, hangs)
  {
  }

  lemma EventGrows(v: View, e: Event, hangs: bool)
    requires AtRest(v) && (EventHangs(e) ==> hangs)
    ensures Grows(v.log, AfterEvent(v, e).log, hangs)
  {
    hide Grows, Told, AtRest, AfterReply, NoHangup, AfterCall;
    SameGrows(v.log, hangs);
    match e
    case Reply(reply, parsed, more, told) =>
      if v.control.Some? && v.state != Closed && reply > 0 {
        ReplyGrows(v, reply, parsed, more, told, hangs);
      } else if reply == 0 {
        assert AfterReply(v, reply, parsed, more, told) == v by {
          NoReply(v, parsed, more, told);
        }
      }
    case Hung(error, told) => NoticeGrows(v, if error then ErrUnknown else ErrClosed, told, hangs);
    case ControlError(told) =>
      NoticeGrows(WithoutControl(v, Dead), if v.state == Closed then ErrConnect else ErrClosed, told, hangs);
    case DataError(told) =>
      if v.state == Xfering {
        FailureGrows(v, told, hangs);
      }
    case User(call) => CallsGrow(v, call, hangs);
    case _ =>
  }

  lemma NoReply(v: View, parsed: bool, more: bool, told: Reaction)
    ensures AfterReply(v, 0, parsed, more, told) == v
  {
    hide Told;
  }

  // ---------------------------------------------------------------- every run

  /** In every run, whatever a reply makes due follows it at once, and every entry has its reason; QUIT is sent on a reply
      that was not awaited, unless the user hangs up. */
  lemma {:induction false} EveryRunFollows(events: seq<Event>, states: seq<View>, n: nat, hangs: bool)
    requires IsRun(events, states) && states[0] == FRESH && n < |states|
    requires forall k :: 0 <= k < |events| && EventHangs(events[k]) ==> hangs
    ensures Dutiful(states[n].log) && AllReasoned(states[n].log, hangs)
    decreases n
  {
    hide AfterEvent, AtRest, EventHangs, DueOn, Reasoned;
    if n > 0 {
      EveryRunFollows(events, states, n - 1, hangs);
      assert states[n - 1 + 1] == AfterEvent(states[n - 1], events[n - 1]);
      EventGrows(states[n - 1], events[n - 1], hangs);
    }
  }

  lemma {:induction false} StatusFacts(log: seq<Entry>)
    requires Run(log).Some?
    ensures var s := Run(log).value; (s.quit ==> s.last == Some(QUIT)) && (s.op.Some? ==> s.logged)
    decreases |log|
  {
    if log != [] {
      StatusFacts(log[..|log| - 1]);
    }
  }

  lemma {:induction false} RunPrefix(log: seq<Entry>, k: nat)
    requires Run(log).Some? && k <= |log|
    ensures Run(log[..k]).Some?
    decreases |log|
  {
    if k == |log| {
      assert log[..k] == log;
    } else {
      RunPrefix(log[..|log| - 1], k);
      assert log[..|log| - 1][..k] == log[..k];
    }
  }

  /** In every run, the reply that completes an operation is followed at once by the result Ok. */
  lemma SuccessIsTold(events: seq<Event>, states: seq<View>, n: nat, k: nat)
    requires IsRun(events, states) && states[0] == FRESH && n < |states|
    requires k < |states[n].log| && states[n].log[k].Got?
    ensures Run(states[n].log[..k + 1]).Some?
    ensures Succeeded(Run(states[n].log[..k + 1]).value) ==> k + 1 < |states[n].log| && states[n].log[k + 1] == Final(Ok)
  {
    hide AfterEvent, AllReasoned, Run, Tied, Held;
    var log := states[n].log;
    EveryRunFollows(events, states, n, true);
    assert AtRest(states[n]);
    RunPrefix(log, k + 1);
    StatusFacts(log[..k + 1]);
    SucceededDue(Run(log[..k + 1]).value);
    assert Succeeded(Run(log[..k + 1]).value) ==> DueOn(log, k) == Some(Final(Ok));
  }

  lemma SucceededDue(s: Status)
    requires (s.quit ==> s.last == Some(QUIT)) && (s.op.Some? ==> s.logged)
    ensures Succeeded(s) ==> Due(s) == Some(Final(Ok))
  {
    assert [150, 226] != [150];
  }

  // ---------------------------------------------------------------- every event

  /** What a call of the interface notes; `there`: the connection has been established. */
  function ExpectedCall(c: Call, s: Status, there: bool): seq<Entry> {
    match c
    case Connect(args, pcb, connects, _) =>
      if s.open || !args then [Returned(ErrArgument)]
      else if !pcb then [Returned(ErrMemory)]
      else if connects then [Opened, Returned(InProgress)]
      else [Returned(ErrUnknown)]
    case Operate(op, args, pcb, _) =>
      if !s.open || !s.logged || s.quit || s.op.Some? || !args then [Returned(ErrArgument)]
      else if Transfers(op) && !pcb then [Returned(ErrMemory)]
      else [Begun(op), Sent(First(op)), Returned(InProgress)]
    case Hangup => if there then [Sent(QUIT)] else []
  }

  /** What an event notes, told by the log so far. */
  function Expected(e: Event, s: Status, there: bool, dataOpen: bool): seq<Entry> {
    match e
    case Reply(reply, _, _, _) =>
      if !there || reply == 0 then []
      else
        var d := Due(Next(s, Got(reply)));
        if d.Some? then [Got(reply), d.value] else [Got(reply)]
    case Hung(error, _) => if s.open then [Notice(if error then ErrUnknown else ErrClosed)] else []
    case ControlError(_) => if s.open then [Notice(if there then ErrClosed else ErrConnect)] else []
    case DataError(_) => if dataOpen && Transferring(s) then [Final(ErrResponse)] else []
    case User(call) => ExpectedCall(call, s, there)
    case _ => []
  }

  /** The states tell no more than the log: what an event notes first follows from the log so far. */
  lemma EventNotes(v: View, e: Event)
    requires AtRest(v)
    ensures var script := Expected(e, Run(v.log).value, v.state != Closed, v.dataOpen);
      && v.log + script <= AfterEvent(v, e).log
      && (Reacting(e) == [] ==> AfterEvent(v, e).log == v.log + script)
  {
    hide AfterEvent, Run, OnReply, Due;
    ScriptFirst(v, e);
    Situation(Run(v.log).value, v.state, v.target, v.data.Some?);
    if e.Reply? && e.reply > 0 && v.control.Some? && v.state != Closed {
      ReplyDue(v, e.reply);
    }
  }

  lemma Situation(s: Status, state: State, target: State, data: bool)
    requires Resting(state) && Tied(s, state, target, data, ErrResponse)
    ensures state == LoggedState <==> s.open && s.logged && !s.quit && s.op.None?
    ensures state == Xfering <==> Transferring(s)
    ensures state != Closed ==> s.open
  {
  }

  /** The data connection ends with the last data, sent or received, and when it fails. If data is under way on it, a failure
      ends the operation too; nothing else does anything to the session. */
  lemma DataEnds(v: View, e: Event)
    requires AtRest(v) && v.dataOpen && Reacting(e) == []
    requires e == DataReceived(true) || e == DataSent(false) || e.DataError?
    ensures var w := AfterEvent(v, e);
      && w.data.None? && !w.dataOpen && w.control == v.control && |w.pcbs| == |v.pcbs|
      && (v.data.Some? && v.data.value < |v.pcbs| ==> w.pcbs == v.pcbs[v.data.value := if e.DataError? then Dead else ClosedByUs])
      && w.state == if e.DataError? && v.state == Xfering then LoggedState else v.state
  {
    hide Run, Tied, Held;
    if e.DataError? {
      NoReaction(Entered(WithoutData(v, Dead), Final(ErrResponse)), e.told);
    }
  }

  lemma NoReaction(v: View, told: Reaction)
    requires told.calls == []
    ensures Reacted(v, told) == v
  {
  }

  /** A reply that starts an upload without any bytes ends its data connection at once; others leave it open. */
  lemma TransferStarts(v: View, more: bool, parsed: bool, told: Reaction)
    requires AtRest(v) && Target(v.state).Some?
    ensures var w := AfterEvent(v, Reply(150, parsed, more, told));
      && Transferring(Run(v.log + [Got(150)]).value) && w.state == Xfering && w.log == v.log + [Got(150)]
      && (v.state == StorSent && !more ==> w.data.None?) && (v.state != StorSent || more ==> w.data == v.data)
  {
    RunOn(v.log, Got(150));
    hide Run, Held, Told;
  }
}
