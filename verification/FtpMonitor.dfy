/** What a log of an FTP client may look like: the command sequencing of section 5.4 of RFC 959 (with MLSD from
    section 7 of RFC 3659), and one final result for each operation. */
module FtpMonitor {
  import opened Options

  datatype Op = Retrieve | Store | List | Delete | RemoveDir | ChangeDir | PrintDir | Move

  datatype Command = USER | PASS | TYPE | PASV | RETR | STOR | MLSD | DELE | RMD | CWD | PWD | RNFR | RNTO | QUIT

  datatype Result = Ok | InProgress | Logged | ErrUnknown | ErrArgument | ErrMemory | ErrConnect | ErrClosed
                  | ErrResponse | ErrFilename

  datatype Entry =
    | Opened                // a connection to the server is under way
    | Sent(c: Command)
    | Got(reply: nat)
    | Begun(op: Op)         // an operation is accepted
    | Returned(r: Result)   // what a call of the interface returns, also told to the callback
    | LoggedIn              // the callback is told so
    | Final(r: Result)      // the callback is told the result of the operation
    | Notice(r: Result)     // the callback is told that the connection is closed

  /** A connection, as far as its log tells: the last command, the replies since, whether the login went well,
      the operation under way, and whether QUIT was sent. */
  datatype Status = Status(open: bool, last: Option<Command>, replies: seq<nat>, logged: bool, op: Option<Op>, quit: bool)

  const CLOSED := Status(false, None, [], false, None, false)

  /** The command whose replies decide on an operation, and those that mean success. */
  function Deciding(op: Op): Command {
    match op
    case Retrieve => RETR
    case Store => STOR
    case List => MLSD
    case Delete => DELE
    case RemoveDir => RMD
    case ChangeDir => CWD
    case PrintDir => PWD
    case Move => RNTO
  }

  predicate Transfers(op: Op) {
    op.Retrieve? || op.Store? || op.List?
  }

  function Success(op: Op): seq<nat> {
    if Transfers(op) then [150, 226] else if op.PrintDir? then [257] else [250]
  }

  predicate Succeeded(s: Status) {
    s.op.Some? && s.last == Some(Deciding(s.op.value)) && s.replies == Success(s.op.value)
  }

  /** The deciding command of the operation; a transfer needs its data connection first. */
  predicate MayDecide(s: Status, c: Command) {
    && s.logged && s.op.Some? && c == Deciding(s.op.value)
    && (Transfers(s.op.value) ==> s.last == Some(PASV) && s.replies == [227])
  }

  /** When a command may be sent. */
  predicate MaySend(s: Status, c: Command) {
    s.open && (c.QUIT? || (!s.quit &&
      match c
      case USER => s.last.None? && s.replies == [220]
      case PASS => s.last == Some(USER) && s.replies == [331]
      case TYPE => s.logged && s.op.Some? && Transfers(s.op.value)
      case PASV => s.logged && s.last == Some(TYPE) && s.replies == [200]
      case RNTO => s.logged && s.op == Some(Move) && s.last == Some(RNFR) && s.replies == [350]
      case RNFR => s.logged && s.op == Some(Move)
      case _ => MayDecide(s, c)))
  }

  predicate Allowed(s: Status, e: Entry) {
    match e
    case Opened => !s.open
    case Sent(c) => MaySend(s, c)
    case Got(_) => s.open
    case Begun(_) => s.open && s.logged && !s.quit && s.op.None?
    case Returned(r) => r.InProgress? ==> s.open
    case LoggedIn => s.logged && s.last == Some(PASS) && s.replies == [230]
    case Final(r) => s.open && !s.quit && s.op.Some? && (r.Ok? <==> Succeeded(s))
    case Notice(_) => s.open
  }

  function Next(s: Status, e: Entry): Status {
    match e
    case Opened => CLOSED.(open := true)
    case Sent(c) => s.(last := Some(c), replies := [], quit := s.quit || c.QUIT?)
    case Got(reply) =>
      s.(replies := s.replies + [reply],
         logged := s.logged || (s.last == Some(PASS) && s.replies == [] && reply == 230))
    case Begun(op) => s.(op := Some(op))
    case Returned(_) => s
    case LoggedIn => s
    case Final(_) => s.(op := None)
    case Notice(_) => CLOSED
  }

  /** The status after a log, if every entry was allowed. */
  function Run(log: seq<Entry>): Option<Status> {
    if log == [] then Some(CLOSED)
    else
      var s := Run(log[..|log| - 1]);
      var e := log[|log| - 1];
      if s.Some? && Allowed(s.value, e) then Some(Next(s.value, e)) else None
  }

  lemma RunOn(log: seq<Entry>, e: Entry)
    requires Run(log).Some? && Allowed(Run(log).value, e)
    ensures Run(log + [e]) == Some(Next(Run(log).value, e))
  {
    assert (log + [e])[..|log|] == log;
  }

  // ---------------------------------------------------------------- what an allowed log implies

  function Begins(log: seq<Entry>): nat {
    if log == [] then 0 else Begins(log[..|log| - 1]) + if log[|log| - 1].Begun? then 1 else 0
  }

  function Finals(log: seq<Entry>): nat {
    if log == [] then 0 else Finals(log[..|log| - 1]) + if log[|log| - 1].Final? then 1 else 0
  }

  /** Closing notices, and those among them that came while an operation was under way. */
  function Notices(log: seq<Entry>, busy: bool): nat
    requires Run(log).Some?
  {
    if log == [] then 0
    else
      var before := log[..|log| - 1];
      Notices(before, busy) + if log[|log| - 1].Notice? && (busy ==> Run(before).value.op.Some?) then 1 else 0
  }

  function Opens(log: seq<Entry>): nat {
    if log == [] then 0 else Opens(log[..|log| - 1]) + if log[|log| - 1].Opened? then 1 else 0
  }

  /** Each operation gets one final result, or else the closing notice of its connection; each connection gets one notice. */
  lemma {:induction false} OneResultEach(log: seq<Entry>)
    requires Run(log).Some?
    ensures Begins(log) == Finals(log) + Notices(log, true) + (if Run(log).value.op.Some? then 1 else 0)
    ensures Opens(log) == Notices(log, false) + (if Run(log).value.open then 1 else 0)
    ensures !Run(log).value.open ==> Run(log).value.op.None?
    decreases |log|
  {
    if log != [] {
      OneResultEach(log[..|log| - 1]);
    }
  }

  /** No command but QUIT once QUIT was sent, until the connection is closed. */
  lemma {:induction false} OnlyQuitAfterQuit(log: seq<Entry>, i: nat, j: nat)
    requires Run(log).Some? && i < j < |log| && log[i] == Sent(QUIT) && log[j].Sent? && !log[j].c.QUIT?
    ensures exists k :: i < k < j && log[k].Notice?
    decreases |log|
  {
    if j + 1 < |log| {
      OnlyQuitAfterQuit(log[..|log| - 1], i, j);
      var k :| i < k < j && log[..|log| - 1][k].Notice?;
      assert log[k].Notice?;
    } else if forall k :: i < k < j ==> !log[k].Notice? {
      QuitStays(log[..j], i);
    }
  }

  lemma {:induction false} QuitStays(log: seq<Entry>, i: nat)
    requires Run(log).Some? && i < |log| && log[i] == Sent(QUIT) && forall k :: i < k < |log| ==> !log[k].Notice?
    ensures Run(log).value.quit && Run(log).value.open
    decreases |log|
  {
    var before := log[..|log| - 1];
    if i < |before| {
      QuitStays(before, i);
    }
  }
}
