/** What events come to over whole runs of the wake-up protocol: how they leave the sockets, and which selects they
    wake. Everything is counted on the steps that were taken. */
module SelectEvents {
  import opened SelectWake

  // ---------------------------------------------------------------- the sockets

  /** The steps of a run that took place. */
  function Happened(st: State, steps: seq<Step>): seq<Step>
    decreases |steps|
  {
    if steps == [] then []
    else (if Enabled(st, steps[0]) then [steps[0]] else []) + Happened(Apply(st, steps[0]), steps[1..])
  }

  predicate IsEvent(step: Step, fd: Fd, evt: Event) {
    step.Occur? && step.fd == fd && step.evt == evt
  }

  /** The packets that wait to be received: one more with each that arrives, one less with each that is taken, none
      when the slot is set up. */
  function Received(n: int, done: seq<Step>, fd: Fd): int
    decreases |done|
  {
    if done == [] then n
    else
      var s := done[0];
      var m := if IsEvent(s, fd, RcvPlus) then n + 1 else if IsEvent(s, fd, RcvMinus) then n - 1
               else if s == ZeroRcv(fd) then 0 else n;
      Received(m, done[1..], fd)
  }

  /** Whether the last word was that there is room to send. */
  function Writable(on: bool, done: seq<Step>, fd: Fd): bool
    decreases |done|
  {
    if done == [] then on
    else
      var s := done[0];
      var now := if IsEvent(s, fd, SendPlus) then true else if IsEvent(s, fd, SendMinus) then false
                 else if s.InitSend? && s.fd == fd then s.on else on;
      Writable(now, done[1..], fd)
  }

  /** Whether an error has come since the slot was set up. */
  function Failed(on: bool, done: seq<Step>, fd: Fd): bool
    decreases |done|
  {
    if done == [] then on
    else
      var s := done[0];
      Failed(if IsEvent(s, fd, Error) then true else if s == ClearErr(fd) then false else on, done[1..], fd)
  }

  /** Whether a reader has left data behind. */
  function LeftBehind(on: bool, done: seq<Step>, fd: Fd): bool
    decreases |done|
  {
    if done == [] then on
    else LeftBehind(if done[0].Keep? && done[0].fd == fd then done[0].lastdata else on, done[1..], fd)
  }

  lemma HappenedStep(st: State, steps: seq<Step>)
    requires steps != []
    ensures var rest := Happened(Apply(st, steps[0]), steps[1..]);
      Happened(st, steps) == if Enabled(st, steps[0]) then [steps[0]] + rest else rest
  {
    hide Apply, Enabled;
    assert [] + Happened(Apply(st, steps[0]), steps[1..]) == Happened(Apply(st, steps[0]), steps[1..]);
  }

  /** What a step does to socket `fd`. */
  ghost predicate Follows(so: Sock, step: Step, fd: Fd, so': Sock) {
    && so'.rcvevent == (if IsEvent(step, fd, RcvPlus) then so.rcvevent + 1 else if IsEvent(step, fd, RcvMinus)
                        then so.rcvevent - 1 else if step == ZeroRcv(fd) then 0 else so.rcvevent)
    && so'.sendevent == (if IsEvent(step, fd, SendPlus) then true else if IsEvent(step, fd, SendMinus) then false
                         else if step.InitSend? && step.fd == fd then step.on else so.sendevent)
    && so'.errevent == (if IsEvent(step, fd, Error) then true else if step == ClearErr(fd) then false else so.errevent)
    && so'.lastdata == (if step.Keep? && step.fd == fd then step.lastdata else so.lastdata)
  }

  lemma EventStep(st: State, step: Step, fd: Fd)
    requires fd in st.socks && Enabled(st, step) && step.Occur?
    ensures fd in Apply(st, step).socks && Follows(st.socks[fd], step, fd, Apply(st, step).socks[fd])
  {
  }

  lemma SockStep(st: State, step: Step, fd: Fd)
    requires fd in st.socks && Enabled(st, step) && OnSock(step)
    ensures fd in Apply(st, step).socks && Follows(st.socks[fd], step, fd, Apply(st, step).socks[fd])
  {
  }

  lemma AnyOtherStep(st: State, step: Step, fd: Fd)
    requires fd in st.socks && Enabled(st, step) && !step.Occur? && !OnSock(step)
    ensures fd in Apply(st, step).socks
    ensures Apply(st, step).socks[fd] == st.socks[fd].(waiting := Apply(st, step).socks[fd].waiting)
  {
    hide Without, Ready, Matches;
  }

  lemma OneStep(st: State, step: Step, fd: Fd)
    requires fd in st.socks && Enabled(st, step)
    ensures fd in Apply(st, step).socks && Follows(st.socks[fd], step, fd, Apply(st, step).socks[fd])
  {
    hide Apply, Enabled;
    if step.Occur? {
      EventStep(st, step, fd);
    } else if OnSock(step) {
      SockStep(st, step, fd);
    } else {
      AnyOtherStep(st, step, fd);
    }
  }

  /** After every run, each socket is as the events on it say. */
  lemma {:induction false} SocketsFollowEvents(st: State, steps: seq<Step>, fd: Fd)
    requires fd in st.socks
    ensures fd in Run(st, steps).socks
    ensures var so, so', done := st.socks[fd], Run(st, steps).socks[fd], Happened(st, steps);
      && so'.rcvevent == Received(so.rcvevent, done, fd) && so'.sendevent == Writable(so.sendevent, done, fd)
      && so'.errevent == Failed(so.errevent, done, fd) && so'.lastdata == LeftBehind(so.lastdata, done, fd)
    decreases |steps|
  {
    hide Apply, Enabled;
    if steps != [] {
      HappenedStep(st, steps);
      if Enabled(st, steps[0]) {
        OneStep(st, steps[0], fd);
        assert ([steps[0]] + Happened(Apply(st, steps[0]), steps[1..]))[1..] == Happened(Apply(st, steps[0]), steps[1..]);
      } else {
        NotTaken(st, steps[0]);
      }
      SocketsFollowEvents(Apply(st, steps[0]), steps[1..], fd);
    }
  }

  lemma NotTaken(st: State, step: Step)
    requires !Enabled(st, step)
    ensures Apply(st, step) == st
  {
  }

  function Times(done: seq<Step>, fd: Fd, evt: Event): nat
    decreases |done|
  {
    if done == [] then 0 else (if IsEvent(done[0], fd, evt) then 1 else 0) + Times(done[1..], fd, evt)
  }

  /** Unless the slot is set up in between, the count is the arrivals less the takings. */
  lemma {:induction false} ReceivedIsCount(n: int, done: seq<Step>, fd: Fd)
    requires ZeroRcv(fd) !in done
    ensures Received(n, done, fd) == n + Times(done, fd, RcvPlus) - Times(done, fd, RcvMinus)
    decreases |done|
  {
    if done != [] {
      assert done[0] in done;
      var s := done[0];
      var m := if IsEvent(s, fd, RcvPlus) then n + 1 else if IsEvent(s, fd, RcvMinus) then n - 1 else n;
      ReceivedIsCount(m, done[1..], fd);
    }
  }

  // ---------------------------------------------------------------- who is woken

  /** The event makes the socket ready for something that it was not ready for. */
  predicate News(so: Sock, evt: Event) {
    || (evt.RcvPlus? && so.rcvevent <= 0)
    || (evt.SendPlus? && !so.sendevent)
    || evt.Error?
  }

  /** An event sets out to wake somebody if and only if somebody waits on the socket and the event is news; it carries
      what the socket is ready for then. */
  lemma SetsOut(st: State, c: CallbackId, fd: Fd, evt: Event)
    requires Enabled(st, Occur(c, fd, evt))
    ensures var st' := Apply(st, Occur(c, fd, evt));
      && fd in st'.socks && (c in st'.walks <==> st.socks[fd].waiting > 0 && News(st.socks[fd], evt))
      && (c in st'.walks ==> Carries(st'.walks[c], fd, st'.socks[fd]))
  {
  }

  ghost predicate Carries(w: Walk, fd: Fd, so: Sock) {
    w.fd == fd && (w.recv <==> so.rcvevent > 0) && (w.send <==> so.sendevent) && (w.err <==> so.errevent)
  }

  /** Step `k` was an event on the socket of `w`, and left the socket ready for what `w` carries. */
  ghost predicate Began(st: State, steps: seq<Step>, k: nat, w: Walk) {
    && k < |steps| && steps[k].Occur? && Enabled(Run(st, steps[..k]), steps[k])
    && w.fd in Run(st, steps[..k + 1]).socks && Carries(w, w.fd, Run(st, steps[..k + 1]).socks[w.fd])
    && steps[k].fd == w.fd
  }

  /** What a callback carries does not change on its way. */
  lemma CarriedOn(st: State, step: Step, c: CallbackId)
    requires c in Apply(st, step).walks && !(step.Occur? && step.c == c)
    ensures c in st.walks
    ensures var w, w' := st.walks[c], Apply(st, step).walks[c];
      w'.fd == w.fd && w'.recv == w.recv && w'.send == w.send && w'.err == w.err
  {
    hide Without, Ready, Matches, Walks, Occurs;
    if step.Advance? && Enabled(st, step) {
      WalkCarries(st, step.c, c);
    } else if step.Occur? && Enabled(st, step) {
      OccurCarries(st, step.c, step.fd, step.evt, c);
    }
  }

  lemma WalkCarries(st: State, d: CallbackId, c: CallbackId)
    requires d in st.walks && c in Walks(st, d).walks
    ensures c in st.walks
    ensures var w, w' := st.walks[c], Walks(st, d).walks[c];
      w'.fd == w.fd && w'.recv == w.recv && w'.send == w.send && w'.err == w.err
  {
    hide Matches;
  }

  lemma OccurCarries(st: State, d: CallbackId, fd: Fd, evt: Event, c: CallbackId)
    requires fd in st.socks && c != d && c in Occurs(st, d, fd, evt).walks
    ensures c in st.walks && Occurs(st, d, fd, evt).walks[c] == st.walks[c]
  {
    hide Raise;
  }

  lemma RunSnoc(st: State, steps: seq<Step>, step: Step)
    ensures Run(st, steps + [step]) == Apply(Run(st, steps), step)
  {
    hide Apply, Run;
    RunConcat(st, steps, [step]);
    RunOne(Run(st, steps), step);
  }

  lemma BeganStays(st: State, steps: seq<Step>, step: Step, k: nat, w: Walk, w': Walk)
    requires Began(st, steps, k, w) && w'.fd == w.fd && w'.recv == w.recv && w'.send == w.send && w'.err == w.err
    ensures Began(st, steps + [step], k, w')
  {
    hide Run, Enabled;
    assert (steps + [step])[..k] == steps[..k] && (steps + [step])[..k + 1] == steps[..k + 1];
  }

  lemma BeginsNow(st: State, steps: seq<Step>, step: Step, c: CallbackId)
    requires step.Occur? && step.c == c && c in Apply(Run(st, steps), step).walks && Enabled(Run(st, steps), step)
    ensures Began(st, steps + [step], |steps|, Apply(Run(st, steps), step).walks[c])
  {
    SetsOut(Run(st, steps), step.c, step.fd, step.evt);
    hide Apply, Run, Enabled;
    RunSnoc(st, steps, step);
    assert (steps + [step])[..|steps|] == steps && (steps + [step])[..|steps| + 1] == steps + [step];
  }

  /** Every callback on its way was set out by an event in the run. */
  lemma {:induction false} CallbacksHaveEvents(st: State, steps: seq<Step>, c: CallbackId)
    requires Initial(st) && c in Run(st, steps).walks
    ensures exists k :: Began(st, steps, k, Run(st, steps).walks[c])
    decreases |steps|
  {
    hide Apply, Enabled, Began;
    if steps != [] {
      var pre, step := steps[..|steps| - 1], steps[|steps| - 1];
      assert pre + [step] == steps;
      RunSnoc(st, pre, step);
      var w := Run(st, steps).walks[c];
      if step.Occur? && step.c == c && Enabled(Run(st, pre), step) {
        BeginsNow(st, pre, step, c);
        assert Began(st, steps, |pre|, w);
      } else {
        CarriedOver(Run(st, pre), step, c);
        CallbacksHaveEvents(st, pre, c);
        var k :| Began(st, pre, k, Run(st, pre).walks[c]);
        BeganStays(st, pre, step, k, Run(st, pre).walks[c], w);
        assert Began(st, steps, k, w);
      }
    }
  }

  lemma CarriedOver(st: State, step: Step, c: CallbackId)
    requires c in Apply(st, step).walks && !(step.Occur? && step.c == c && Enabled(st, step))
    ensures c in st.walks
    ensures var w, w' := st.walks[c], Apply(st, step).walks[c];
      w'.fd == w.fd && w'.recv == w.recv && w'.send == w.send && w'.err == w.err
  {
    hide Apply, Enabled;
    if Enabled(st, step) {
      CarriedOn(st, step, c);
    } else {
      NotTaken(st, step);
    }
  }

  /** The select wants `fd` for something that `w` carries. */
  predicate WantsFor(sel: Select, w: Walk) {
    (w.fd in sel.read && w.recv) || (w.fd in sel.write && w.send) || (w.fd in sel.except && w.err)
  }

  /** A select is signalled only by a callback that carries what it wants. */
  lemma SignalledBy(st: State, step: Step, x: SelectId)
    requires x in Apply(st, step).selects && Apply(st, step).selects[x].signalled
    ensures x in st.selects
    ensures !st.selects[x].signalled ==>
      && step.Advance? && step.c in st.walks && WantsFor(st.selects[x], st.walks[step.c])
    ensures var sel, sel' := st.selects[x], Apply(st, step).selects[x];
      sel'.read == sel.read && sel'.write == sel.write && sel'.except == sel.except
  {
    hide Without, Ready;
  }

  /** Event `k` of the run left its socket ready for something that the select wants it for. */
  ghost predicate Caused(st: State, steps: seq<Step>, k: nat, sel: Select) {
    && k < |steps| && steps[k].Occur? && steps[k].fd in Run(st, steps[..k + 1]).socks
    && var fd, so := steps[k].fd, Run(st, steps[..k + 1]).socks[steps[k].fd];
       || (fd in sel.read && so.rcvevent > 0) || (fd in sel.write && so.sendevent) || (fd in sel.except && so.errevent)
  }

  lemma CausedStays(st: State, steps: seq<Step>, step: Step, k: nat, sel: Select, sel': Select)
    requires Caused(st, steps, k, sel) && sel'.read == sel.read && sel'.write == sel.write && sel'.except == sel.except
    ensures Caused(st, steps + [step], k, sel')
  {
    hide Run;
    assert (steps + [step])[..k + 1] == steps[..k + 1];
  }

  lemma BeganCauses(st: State, steps: seq<Step>, k: nat, w: Walk, sel: Select)
    requires Began(st, steps, k, w) && WantsFor(sel, w)
    ensures Caused(st, steps, k, sel)
  {
    hide Run, Enabled;
  }

  /** No select is woken without an event on a socket that it wants, after which the socket was ready for it. */
  lemma {:induction false} WokenForCause(st: State, steps: seq<Step>, x: SelectId)
    requires Initial(st) && x in Run(st, steps).selects && Run(st, steps).selects[x].signalled
    ensures exists k :: Caused(st, steps, k, Run(st, steps).selects[x])
    decreases |steps|
  {
    hide Apply, Enabled, Began, Caused, WantsFor;
    if steps != [] {
      var pre, step := steps[..|steps| - 1], steps[|steps| - 1];
      assert pre + [step] == steps;
      RunSnoc(st, pre, step);
      SignalledBy(Run(st, pre), step, x);
      var sel, sel' := Run(st, pre).selects[x], Run(st, steps).selects[x];
      if sel.signalled {
        WokenForCause(st, pre, x);
        var k :| Caused(st, pre, k, sel);
        CausedStays(st, pre, step, k, sel, sel');
        assert Caused(st, steps, k, sel');
      } else {
        CallbacksHaveEvents(st, pre, step.c);
        var k :| Began(st, pre, k, Run(st, pre).walks[step.c]);
        BeganCauses(st, pre, k, Run(st, pre).walks[step.c], sel);
        CausedStays(st, pre, step, k, sel, sel');
        assert Caused(st, steps, k, sel');
      }
    }
  }

  // ---------------------------------------------------------------- why a select goes on or gives up

  /** An announcement fails if and only if the socket is gone or its counter is full; else it is counted. */
  lemma TellDecides(st: State, x: SelectId, fd: Fd)
    requires Enabled(st, Tell(x, fd))
    ensures var st' := Apply(st, Tell(x, fd));
      && x in st'.selects && (st'.selects[x].phase.Withdrawing? <==> fd !in st.socks || st.socks[fd].waiting == FULL)
      && (!st'.selects[x].phase.Withdrawing? ==>
            && st'.selects[x] == st.selects[x].(told := st.selects[x].told + {fd})
            && fd in st'.socks && st'.socks[fd].waiting == st.socks[fd].waiting + 1)
  {
  }

  /** A look ends the wait if and only if the socket is gone, or is ready for something that it is wanted for. */
  lemma LookDecides(st: State, x: SelectId, fd: Fd)
    requires Enabled(st, Look(x, fd))
    ensures var sel, st' := st.selects[x], Apply(st, Look(x, fd));
      && x in st'.selects
      && (st'.selects[x].phase.Withdrawing? <==>
            || fd !in st.socks
            || (fd in sel.read && (st.socks[fd].lastdata || st.socks[fd].rcvevent > 0))
            || (fd in sel.write && st.socks[fd].sendevent) || (fd in sel.except && st.socks[fd].errevent))
      && (!st'.selects[x].phase.Withdrawing? ==> st'.selects[x] == sel.(scanned := sel.scanned + {fd}))
  {
  }

  /** A select that has begun gives up only for one of these reasons, or because its wait is over. */
  lemma GivesUpForCause(st: State, step: Step, x: SelectId)
    requires x in st.selects && !st.selects[x].phase.Withdrawing?
    ensures x in Apply(st, step).selects
    ensures Apply(st, step).selects[x].phase.Withdrawing? ==>
      (step.Tell? && step.x == x) || (step.Look? && step.x == x) || (step == Wake(x) && st.selects[x].phase.Asleep?)
  {
    hide Without, Ready, Matches;
  }

  // ---------------------------------------------------------------- the way out

  /** The other selects are as they were. */
  ghost predicate OthersSame(a: State, b: State, x: SelectId) {
    forall y :: y != x ==> (y in a.selects <==> y in b.selects) && (y in a.selects ==> a.selects[y] == b.selects[y])
  }

  /** A select that withdraws can take back all its announcements and be gone, by steps of its own. */
  lemma {:induction false} Withdraws(st: State, x: SelectId) returns (steps: seq<Step>)
    requires AllSound(st) && x in st.selects && st.selects[x].phase.Withdrawing?
    ensures x !in Run(st, steps).selects && OthersSame(st, Run(st, steps), x)
    ensures forall k :: 0 <= k < |steps| ==> (steps[k].Untell? || steps[k].Unlink?) && steps[k].x == x
    decreases |st.selects[x].told|
  {
    if st.selects[x].told == {} {
      steps := [Unlink(x)];
      RunOne(st, Unlink(x));
    } else {
      var fd :| fd in st.selects[x].told;
      var next := Apply(st, Untell(x, fd));
      SoundStep(st, Untell(x, fd));
      var rest := Withdraws(next, x);
      steps := [Untell(x, fd)] + rest;
      assert steps[1..] == rest;
    }
  }

  /** From every reachable state, a sleeping select that is woken, by a signal or by the end of its time, can leave; then no
      socket counts it any more. */
  lemma SleeperLeaves(st0: State, steps: seq<Step>, x: SelectId) returns (more: seq<Step>)
    requires Initial(st0)
    requires var st := Run(st0, steps); x in st.selects && st.selects[x].phase.Asleep?
    ensures more != [] && more[0] == Wake(x)
    ensures forall k :: 0 < k < |more| ==> (more[k].Untell? || more[k].Unlink?) && more[k].x == x
    ensures var st, end := Run(st0, steps), Run(Run(st0, steps), more);
      && x !in end.selects && x !in end.list && OthersSame(st, end, x)
      && forall fd :: fd in end.socks ==> end.socks[fd].waiting == |Waiters(end.selects, fd)| && x !in Waiters(end.selects, fd)
  {
    InitialInv(st0);
    RunKeeps(st0, steps);
    var st := Run(st0, steps);
    var awake := Apply(st, Wake(x));
    SoundStep(st, Wake(x));
    var rest := Withdraws(awake, x);
    more := [Wake(x)] + rest;
    assert more[1..] == rest;
    RunKeeps(st, more);
  }
}
