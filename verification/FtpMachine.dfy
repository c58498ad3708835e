/** What the FTP control session does on each event, as a table of transitions: which entries it notes, where it waits
    then, which connections it holds, and what its callback makes of it. */
module FtpMachine {
  import opened Options
  import opened FtpMonitor

  datatype State =
    | Closed | Connected | UserSent | PassSent | LoggedState | TypeSent | PasvSent | RetrSent | StorSent | Xfering
    | DataEnd | Quit | QuitSent | Closing | MlsdSent | DeleSent | RmdSent | CwdSent | PwdSent | RnfrSent | RntoSent
    | CmdEnd

  /** A connection block from `tcp_new`: in use, closed by us, or reported dead by an error. */
  datatype Pcb = Live | ClosedByUs | Dead

  /** What the callback does when it is called: it calls the interface, any number of times, and is called again. */
  datatype Reaction = Reaction(calls: seq<Call>)

  /** `args`: the strings that the call needs are set; `pcb`: `tcp_new` succeeds; `connects`: so does `tcp_connect`. */
  datatype Call =
    | Connect(args: bool, pcb: bool, connects: bool, told: Reaction)
    | Operate(op: Op, args: bool, pcb: bool, told: Reaction)
    | Hangup

  datatype Event =
    | Established                                                   // the control connection is there
    | Reply(reply: nat, parsed: bool, more: bool, told: Reaction)   // text from the server
    | Hung(error: bool, told: Reaction)                             // it closed the control connection, or receiving failed
    | ControlError(told: Reaction)
    | DataError(told: Reaction)
    | DataReceived(last: bool)                                      // data, or the end of it
    | DataSent(more: bool)                                          // an acknowledgement; `more`: there is more to send
    | User(call: Call)

  /** The operation that a target state stands for. */
  function Target(t: State): Option<Op> {
    match t
    case RetrSent => Some(Retrieve)
    case StorSent => Some(Store)
    case MlsdSent => Some(List)
    case _ => None
  }

  /** Where one command without a transfer has been sent, and for which operation. */
  function Waiting(t: State): Option<Op> {
    match t
    case DeleSent => Some(Delete)
    case RmdSent => Some(RemoveDir)
    case CwdSent => Some(ChangeDir)
    case PwdSent => Some(PrintDir)
    case RnfrSent => Some(Move)
    case RntoSent => Some(Move)
    case _ => None
  }

  predicate Resting(t: State) {
    !t.DataEnd? && !t.CmdEnd? && !t.Quit? && !t.Closing?
  }

  /** The first command of an operation. */
  function First(op: Op): Command {
    if Transfers(op) then TYPE else if op.Move? then RNFR else Deciding(op)
  }

  /** What is noted when the interface is called, before anything else. */
  function ConnectScript(state: State, control: Option<nat>, args: bool, pcb: bool, connects: bool): seq<Entry> {
    if state != Closed || control.Some? || !args then [Returned(ErrArgument)]
    else if !pcb then [Returned(ErrMemory)]
    else if connects then [Opened, Returned(InProgress)]
    else [Returned(ErrUnknown)]
  }

  function OperateScript(state: State, op: Op, args: bool, pcb: bool): seq<Entry> {
    if state != LoggedState || !args then [Returned(ErrArgument)]
    else if Transfers(op) && !pcb then [Returned(ErrMemory)]
    else [Begun(op), Sent(First(op)), Returned(InProgress)]
  }

  /** The result for a reply to a command without a transfer. */
  function Verdict(state: State, reply: nat): Result {
    if state == PwdSent then (if reply == 257 then Ok else ErrResponse)
    else if reply == 250 then Ok
    else if reply == 550 && state != RntoSent then ErrFilename
    else ErrResponse
  }

  /** The first step of the state machine: what is sent on a reply, or else where the machine goes. */
  function OnReply(state: State, target: State, reply: nat): Entry {
    match state
    case Connected => if reply == 220 then Sent(USER) else Sent(QUIT)
    case UserSent => if reply == 331 then Sent(PASS) else Sent(QUIT)
    case PassSent => if reply == 230 then LoggedIn else Sent(QUIT)
    case TypeSent => if reply == 200 then Sent(PASV) else Sent(QUIT)
    case PasvSent => if reply == 227 && Target(target).Some? then Sent(Deciding(Target(target).value)) else Sent(QUIT)
    case RetrSent => if reply == 550 then Final(ErrFilename) else Final(ErrResponse)
    case StorSent => Final(ErrResponse)
    case MlsdSent => Final(ErrResponse)
    case Xfering => if reply == 226 then Final(Ok) else Final(ErrClosed)
    case RnfrSent => if reply == 350 then Sent(RNTO) else if reply == 550 then Final(ErrFilename) else Final(ErrResponse)
    case QuitSent => if reply == 221 then Notice(Ok) else Notice(ErrUnknown)
    case _ => Final(Verdict(state, reply))
  }

  /** A reply that changes the state only, or nothing. */
  predicate Silent(state: State, reply: nat) {
    state == LoggedState || (Target(state).Some? && reply == 150)
  }

  /** What is noted when a reply comes, before anything else. */
  function ReplyScript(state: State, target: State, reply: nat): seq<Entry> {
    if reply == 0 then []
    else if Silent(state, reply) then [Got(reply)]
    else [Got(reply), OnReply(state, target, reply)]
  }

  function CallScript(c: Call, state: State, control: Option<nat>): seq<Entry> {
    match c
    case Connect(args, pcb, connects, _) => ConnectScript(state, control, args, pcb, connects)
    case Operate(op, args, pcb, _) => OperateScript(state, op, args, pcb)
    case Hangup => if state == Closed then [] else [Sent(QUIT)]
  }

  /** What is noted on an event, before the callback gets to do anything. */
  function Script(e: Event, state: State, target: State, control: Option<nat>, dataOpen: bool): seq<Entry> {
    match e
    case Reply(reply, _, _, _) => if control.Some? && state != Closed then ReplyScript(state, target, reply) else []
    case Hung(error, _) => if control.Some? then [Notice(if error then ErrUnknown else ErrClosed)] else []
    case ControlError(_) => if control.Some? then [Notice(if state == Closed then ErrConnect else ErrClosed)] else []
    case DataError(_) => if dataOpen && state == Xfering then [Final(ErrResponse)] else []
    case User(call) => CallScript(call, state, control)
    case _ => []
  }

  /** The code uses a null pointer: an upload may begin, but its data connection has died. */
  predicate NullUse(e: Event, state: State, data: Option<nat>) {
    e.Reply? && e.reply == 150 && state == StorSent && data.None?
  }

  /** The session between events. */
  datatype View = View(state: State, target: State, control: Option<nat>, data: Option<nat>, dataOpen: bool,
                       pcbs: seq<Pcb>, log: seq<Entry>)

  // ---------------------------------------------------------------- what happens

  function Add(v: View, entries: seq<Entry>): View {
    v.(log := v.log + entries)
  }

  function Marked(pcbs: seq<Pcb>, p: nat, how: Pcb): seq<Pcb> {
    if p < |pcbs| then pcbs[p := how] else pcbs
  }

  function WithoutData(v: View, how: Pcb): View {
    v.(data := None, dataOpen := false, pcbs := if v.data.Some? then Marked(v.pcbs, v.data.value, how) else v.pcbs)
  }

  function WithoutControl(v: View, how: Pcb): View {
    v.(control := None, pcbs := if v.control.Some? then Marked(v.pcbs, v.control.value, how) else v.pcbs)
  }

  /** Both connections closed. */
  function Shut(v: View): View {
    WithoutControl(WithoutData(v, ClosedByUs), ClosedByUs).(state := Closed)
  }

  /** Where the session waits once a command is sent. */
  function StateFor(c: Command): State {
    match c
    case USER => UserSent
    case PASS => PassSent
    case TYPE => TypeSent
    case PASV => PasvSent
    case RETR => RetrSent
    case STOR => StorSent
    case MLSD => MlsdSent
    case DELE => DeleSent
    case RMD => RmdSent
    case CWD => CwdSent
    case PWD => PwdSent
    case RNFR => RnfrSent
    case RNTO => RntoSent
    case QUIT => QuitSent
  }

  /** The session once `e` is noted, where the callback is not in yet. */
  function Entered(v: View, e: Entry): View {
    var w := Add(v, [e]);
    match e
    case Sent(c) => w.(state := StateFor(c))
    case LoggedIn => w.(state := LoggedState)
    case Final(_) => WithoutData(w, ClosedByUs).(state := LoggedState)
    case Notice(_) => Shut(w)
    case _ => w
  }

  /** A call of the interface, up to where the callback is told its return value. */
  function Called(v: View, c: Call): View {
    var w := Add(v, CallScript(c, v.state, v.control));
    match c
    case Connect(args, pcb, connects, _) =>
      if v.state != Closed || v.control.Some? || !args || !pcb then w
      else if connects then w.(control := Some(|v.pcbs|), pcbs := v.pcbs + [Live])
      else w.(pcbs := v.pcbs + [ClosedByUs])
    case Operate(op, args, pcb, _) =>
      if v.state != LoggedState || !args || (Transfers(op) && !pcb) then w
      else if Transfers(op) then
        w.(state := TypeSent, target := StateFor(Deciding(op)), data := Some(|v.pcbs|), pcbs := v.pcbs + [Live])
      else w.(state := StateFor(First(op)))
    case Hangup => if v.state == Closed then w else w.(state := QuitSent)
  }

  /** A call with all that the callback does when it is told its return value. */
  function AfterCall(v: View, c: Call): View
    decreases c, 0
  {
    match c
    case Connect(_, _, _, told) => Reacted(Called(v, c), told)
    case Operate(_, _, _, told) => Reacted(Called(v, c), told)
    case Hangup => Called(v, c)
  }

  /** The callback makes its calls one after the other. */
  function Reacted(v: View, told: Reaction): View
    decreases told, |told.calls| + 1
  {
    ReactedBy(v, told, |told.calls|)
  }

  function ReactedBy(v: View, told: Reaction, n: nat): View
    requires n <= |told.calls|
    decreases told, n
  {
    if n == 0 then v else AfterCall(ReactedBy(v, told, n - 1), told.calls[n - 1])
  }

  /** An entry with which the callback is called. */
  predicate Tells(e: Entry) {
    e.Returned? || e.LoggedIn? || e.Final? || e.Notice?
  }

  function Told(v: View, e: Entry, told: Reaction): View {
    if Tells(e) then Reacted(Entered(v, e), told) else Entered(v, e)
  }

  /** A reply: the transition that its entry stands for; else a transfer begins, and an empty upload ends at once. */
  function AfterReply(v: View, reply: nat, parsed: bool, more: bool, told: Reaction): View {
    var w := Add(v, [Got(reply)]);
    if reply == 0 then v
    else if v.state == LoggedState then w
    else if Silent(v.state, reply) then Begun150(w, more)
    else if v.state == PasvSent && reply == 227 then
      Told(w, OnReply(v.state, v.target, reply), told).(dataOpen := parsed)
    else Told(w, OnReply(v.state, v.target, reply), told)
  }

  function Begun150(v: View, more: bool): View {
    if v.state == StorSent && !more then WithoutData(v, ClosedByUs).(state := Xfering) else v.(state := Xfering)
  }

  function AfterEvent(v: View, e: Event): View {
    match e
    case Established => if v.state == Closed && v.control.Some? then v.(state := Connected) else v
    case Reply(reply, parsed, more, told) =>
      if v.control.Some? && v.state != Closed then AfterReply(v, reply, parsed, more, told) else v
    case Hung(error, told) =>
      if v.control.Some? then Told(v, Notice(if error then ErrUnknown else ErrClosed), told) else v
    case ControlError(told) =>
      if v.control.Some? then
        Told(WithoutControl(v, Dead), Notice(if v.state == Closed then ErrConnect else ErrClosed), told)
      else v
    case DataError(told) =>
      if !v.dataOpen then v
      else if v.state == Xfering then Told(WithoutData(v, Dead), Final(ErrResponse), told)
      else WithoutData(v, Dead)
    case DataReceived(last) => if v.dataOpen && last then WithoutData(v, ClosedByUs) else v
    case DataSent(more) => if v.dataOpen && !more then WithoutData(v, ClosedByUs) else v
    case User(call) => AfterCall(v, call)
  }


  // ---------------------------------------------------------------- the log

  /** The callback only adds to the log. */
  lemma {:induction false} CallsAdd(v: View, c: Call)
    ensures v.log <= Called(v, c).log <= AfterCall(v, c).log
    ensures c.Hangup? || c.told.calls == [] ==> AfterCall(v, c) == Called(v, c)
    decreases c, 0
  {
    if !c.Hangup? {
      ReactionAdds(Called(v, c), c.told, |c.told.calls|);
    }
  }

  lemma {:induction false} ReactionAdds(v: View, told: Reaction, n: nat)
    requires n <= |told.calls|
    ensures v.log <= ReactedBy(v, told, n).log
    decreases told, n
  {
    hide AfterCall;
    if n > 0 {
      ReactionAdds(v, told, n - 1);
      CallsAdd(ReactedBy(v, told, n - 1), told.calls[n - 1]);
    }
  }

  lemma ToldAdds(v: View, e: Entry, told: Reaction)
    ensures v.log + [e] <= Told(v, e, told).log
    ensures told.calls == [] || !Tells(e) ==> Told(v, e, told).log == v.log + [e]
  {
    ReactionAdds(Entered(v, e), told, |told.calls|);
  }

  /** What the callback, if it is called, does on an event. */
  function Reacting(e: Event): seq<Call> {
    match e
    case Reply(_, _, _, told) => told.calls
    case Hung(_, told) => told.calls
    case ControlError(told) => told.calls
    case DataError(told) => told.calls
    case User(call) => if call.Hangup? then [] else call.told.calls
    case _ => []
  }

  /** On an event, its script is noted first; what follows is the callback's doing, and is nothing if it makes no call. */
  lemma ScriptFirst(v: View, e: Event)
    ensures var script := Script(e, v.state, v.target, v.control, v.dataOpen);
      && v.log + script <= AfterEvent(v, e).log
      && (Reacting(e) == [] ==> AfterEvent(v, e).log == v.log + script)
  {
    match e
    case Reply(reply, parsed, more, told) =>
      ReplyFirst(v, reply, parsed, more, told);
    case Hung(error, told) =>
      ToldAdds(v, Notice(if error then ErrUnknown else ErrClosed), told);
    case ControlError(told) =>
      ToldAdds(WithoutControl(v, Dead), Notice(if v.state == Closed then ErrConnect else ErrClosed), told);
    case DataError(told) =>
      ToldAdds(WithoutData(v, Dead), Final(ErrResponse), told);
    case User(call) =>
      CallsAdd(v, call);
    case _ =>
  }

  lemma ReplyFirst(v: View, reply: nat, parsed: bool, more: bool, told: Reaction)
    ensures var script := ReplyScript(v.state, v.target, reply); var w := AfterReply(v, reply, parsed, more, told);
      v.log + script <= w.log && (told.calls == [] ==> w.log == v.log + script)
  {
    hide OnReply, Told;
    var e := OnReply(v.state, v.target, reply);
    ToldAdds(Add(v, [Got(reply)]), e, told);
    assert v.log + [Got(reply)] + [e] == v.log + [Got(reply), e];
  }

  // ---------------------------------------------------------------- an upload without a data connection

  const IDLE := Reaction([])

  const FRESH := View(Closed, Closed, None, None, false, [], [])

  predicate At(v: View, state: State, target: State, control: bool, data: bool, dataOpen: bool) {
    v.state == state && v.target == target && v.control.Some? == control && v.data.Some? == data && v.dataOpen == dataOpen
  }

  /** Connect, log in, and store a file; then the data connection dies. */
  const LOST_UPLOAD: seq<Event> :=
    [User(Connect(true, true, true, IDLE)), Established, Says(220), Says(331), Says(230),
     User(Operate(Store, true, true, IDLE)), Says(200), Says(227), DataError(IDLE)]

  function Says(reply: nat): Event {
    Reply(reply, true, true, IDLE)
  }

  lemma IdleTold(v: View, e: Entry)
    ensures Told(v, e, IDLE) == Entered(v, e)
  {
  }

  lemma SaysIs(v: View, reply: nat, e: Entry)
    requires v.control.Some? && v.state != Closed && v.state != LoggedState && !Silent(v.state, reply) && reply > 0
    requires e == OnReply(v.state, v.target, reply) && (e.Sent? || e.LoggedIn?)
    ensures At(AfterEvent(v, Says(reply)), if e.Sent? then StateFor(e.c) else LoggedState, v.target, true, v.data.Some?,
               if v.state == PasvSent && reply == 227 then true else v.dataOpen)
  {
    hide OnReply, Reacted;
    IdleTold(Add(v, [Got(reply)]), OnReply(v.state, v.target, reply));
  }

  lemma Connects(v: View)
    requires v == FRESH
    ensures At(AfterEvent(v, LOST_UPLOAD[0]), Closed, Closed, true, false, false)
  {
    CallsAdd(v, Connect(true, true, true, IDLE));
  }

  lemma Stores(v: View)
    requires At(v, LoggedState, Closed, true, false, false)
    ensures At(AfterEvent(v, LOST_UPLOAD[5]), TypeSent, StorSent, true, true, false)
  {
    CallsAdd(v, Operate(Store, true, true, IDLE));
  }

  lemma Establishes(v: View)
    requires At(v, Closed, Closed, true, false, false)
    ensures At(AfterEvent(v, LOST_UPLOAD[1]), Connected, Closed, true, false, false)
  {
  }

  lemma LosesData(v: View)
    requires At(v, StorSent, StorSent, true, true, true)
    ensures At(AfterEvent(v, LOST_UPLOAD[8]), StorSent, StorSent, true, false, false)
  {
  }

  /** After these events the session waits for the reply to STOR, without a data connection. */
  lemma UploadIsLost(states: seq<View>)
    requires |states| >= 10 && states[0] == FRESH
    requires forall k :: 0 <= k < 9 ==> states[k + 1] == AfterEvent(states[k], LOST_UPLOAD[k])
    ensures At(states[9], StorSent, StorSent, true, false, false)
  {
    hide AfterEvent;
    Connects(states[0]);
    Establishes(states[1]);
    SaysIs(states[2], 220, Sent(USER));
    SaysIs(states[3], 331, Sent(PASS));
    SaysIs(states[4], 230, LoggedIn);
    Stores(states[5]);
    SaysIs(states[6], 200, Sent(PASV));
    SaysIs(states[7], 227, Sent(STOR));
    LosesData(states[8]);
  }
}
