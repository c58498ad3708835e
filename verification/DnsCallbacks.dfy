/** What the callbacks of the DNS resolver are about, over every run: a request is told an address only because the
    server that was asked has sent it in a response to the question for the name of that request. */
module DnsCallbacks {
  import opened Octets
  import opened Options
  import opened DnsTable
  import opened DnsNames
  import opened DnsResponse
  import opened DnsSteps

  /** The entry asks for what the question wants: its name, and its family, or the second one of two. */
  ghost predicate AsksFor(e: Entry, q: Question) {
    && Alike(q.name, e.name)
    && (e.family == q.family || (q.family == V4ThenV6 && e.family == V6) || (q.family == V6ThenV4 && e.family == V4))
  }

  /** Every request waits for an entry that asks for what it wants. */
  ghost predicate Rightly(v: View) {
    forall r :: 0 <= r < |v.requests| && v.requests[r].Pending? ==>
      && v.requests[r].id < |v.questions| && v.requests[r].idx < |v.table|
      && AsksFor(v.table[v.requests[r].idx], v.questions[v.requests[r].id])
  }

  // ---------------------------------------------------------------- requests wait for the right entries

  lemma RightlyTick(lim: Limits, v: View, w: View)
    requires Sound(lim, v) && TickOn(lim, v, w) && Rightly(v)
    ensures Rightly(w)
  {
    hide Accounted, PortsUsed, DistinctTxids, Alike, TicksLeft;
    forall r | 0 <= r < |w.requests| && w.requests[r].Pending?
      ensures v.requests[r] == w.requests[r]
      ensures w.requests[r].idx < |w.table|
      ensures AsksFor(w.table[w.requests[r].idx], w.questions[w.requests[r].id])
    {
      TickKeeps(lim, v.servers, v.table[w.requests[r].idx]);
    }
  }

  lemma TickKeeps(lim: Limits, servers: seq<bool>, e: Entry)
    requires lim.Ok() && |servers| == lim.servers && InRange(lim, e)
    ensures var e' := Ticked(lim, servers, e); e'.name == e.name && e'.family == e.family && e'.ipaddr == e.ipaddr
  {
  }

  lemma SameIsAlike(a: seq<Byte>, b: seq<Byte>)
    ensures SameName(a, b) ==> Alike(a, b)
    ensures Alike(a, a)
  {
  }

  lemma RightlyShared(lim: Limits, v: View, name: seq<Byte>, family: AddrType, d: nat, r: nat, w: View)
    requires Sound(lim, v) && SharedOn(v, name, family, d, r, w) && Rightly(v)
    ensures Rightly(w)
  {
    SameIsAlike(name, v.table[d].name);
    hide Alike, SameName, Accounted, PortsUsed, DistinctTxids, AllInRange;
  }

  /** Entry `i` becomes `e` while nobody waits for it but for what `e` asks for. */
  lemma RightlyAsked(lim: Limits, v: View, i: nat, e: Entry, w: View)
    requires Asked(lim, v, i, e, w) && Rightly(v.(table := v.table[i := e]))
    ensures Rightly(w)
  {
    hide Alike;
    forall r | 0 <= r < |w.requests| && w.requests[r].Pending?
      ensures v.requests[r] == w.requests[r] && w.questions == v.questions
      ensures w.requests[r].idx < |w.table|
      ensures var x := v.table[i := e][w.requests[r].idx]; var y := w.table[w.requests[r].idx];
        y.name == x.name && y.family == x.family
    {
    }
  }

  lemma RightlyBegun(lim: Limits, v: View, name: seq<Byte>, family: AddrType, canBind: bool, i: nat, r: nat, k: nat, w: View)
    requires Sound(lim, v) && BegunOn(lim, v, name, family, canBind, i, r, k, w) && Rightly(v)
    ensures Rightly(w)
  {
    var b := Begun(v, name, family, i, r, k);
    SameIsAlike(name, name);
    assert Rightly(b) by {
      hide Alike, Accounted, PortsUsed, DistinctTxids;
      forall x | 0 <= x < |b.requests| && b.requests[x].Pending?
        ensures b.requests[x].id < |b.questions| && b.requests[x].idx < |b.table|
        ensures AsksFor(b.table[b.requests[x].idx], b.questions[b.requests[x].id])
      {
        if x != r {
          assert v.requests[x].idx != i;
        }
      }
    }
    assert b.(table := b.table[i := b.table[i]]) == b;
    RightlyAsked(lim, b, i, b.table[i], w);
  }

  lemma RightlyEmptied(lim: Limits, v: View, name: seq<Byte>, family: AddrType, i: nat, w: View)
    requires Sound(lim, v) && Picked(v.table, v.seqno, i) && w == Emptied(lim, v, name, family, i)
    requires Rightly(v)
    ensures Rightly(w)
  {
    hide Alike, Accounted, PortsUsed, DistinctTxids;
    forall r | 0 <= r < |w.requests| && w.requests[r].Pending?
      ensures v.requests[r].idx != i
    {
    }
  }

  lemma RightlyQuery(lim: Limits, v: View, name: seq<Byte>, family: AddrType, canBind: bool, w: View)
    requires Sound(lim, v) && QueryOn(lim, v, name, family, canBind, w) && Rightly(v)
    ensures Rightly(w)
  {
    hide Sound, Rightly, SharedOn, BegunOn, Emptied, Acceptable, Usable, Duplicate, Age;
    if !Acceptable(v, name, family, canBind) {
      if w != v {
        var i :| Picked(v.table, v.seqno, i) && w == Emptied(lim, v, name, family, i);
        RightlyEmptied(lim, v, name, family, i, w);
      }
    } else if exists i :: 0 <= i < |v.table| && Duplicate(v.table[i], name, family) {
      var d, r :| SharedOn(v, name, family, d, r, w);
      RightlyShared(lim, v, name, family, d, r, w);
    } else {
      var i, r, k :| BegunOn(lim, v, name, family, canBind, i, r, k, w);
      RightlyBegun(lim, v, name, family, canBind, i, r, k, w);
    }
  }

  lemma RightlyGone(v: View, i: nat, w: View)
    requires OnlyAt(v, i, w) && w.requests == Cleared(v.requests, i) && Rightly(v)
    ensures Rightly(w)
  {
    hide Alike;
    forall r | 0 <= r < |w.requests| && w.requests[r].Pending?
      ensures v.requests[r] == w.requests[r] && w.requests[r].idx != i
    {
    }
  }

  lemma RightlyHandled(lim: Limits, v: View, i: nat, outcome: Outcome, w: View)
    requires i < |v.table| && HandledOn(lim, v, i, outcome, w) && Rightly(v)
    ensures Rightly(w)
  {
    hide Alike, GivenTo, Cleared;
    var e := v.table[i];
    if outcome.NoAddress? && e.family.TwoFamilies() {
      RightlyFallback(v, i);
      RightlyAsked(lim, v, i, e.(family := e.family.Second()), w);
    } else if outcome.Refused? && e.server + 1 < |v.servers| && v.servers[e.server + 1] {
    } else if !outcome.Ignored? {
      RightlyGone(v, i, w);
    }
  }

  lemma RightlyFallback(v: View, i: nat)
    requires i < |v.table| && v.table[i].family.TwoFamilies() && Rightly(v)
    ensures Rightly(v.(table := v.table[i := v.table[i].(family := v.table[i].family.Second())]))
  {
    hide Alike;
  }

  lemma RightlyPacket(lim: Limits, v: View, m: Message, sender: set<nat>, w: View)
    requires PacketOn(lim, v, m, sender, w) && Rightly(v)
    ensures Rightly(w)
  {
    hide HandledOn, Rightly, Reading, U16;
    if w != v {
      var i :| 0 <= i < |v.table| && AskedUnder(v.table[i], U16(m, 0)) && HandledOn(lim, v, i, Says(m, sender, v.table[i]), w);
      RightlyHandled(lim, v, i, Says(m, sender, v.table[i]), w);
    }
  }

  lemma RightlyStep(lim: Limits, v: View, op: Op, w: View)
    requires Sound(lim, v) && Follows(lim, v, op, w) && Rightly(v)
    ensures Rightly(w)
  {
    hide Sound, Rightly, QueryOn, TickOn, PacketOn, Known;
    match op
    case Query(name, family, canBind) =>
      if w != v {
        RightlyQuery(lim, v, Plain(name), family, canBind, w);
      }
    case TimerTick => RightlyTick(lim, v, w);
    case Packet(m, sender) => RightlyPacket(lim, v, m, sender, w);
    case Server(k, isSet) => RightlyServer(v, w);
  }

  lemma RightlyServer(v: View, w: View)
    requires w == v.(servers := w.servers) && Rightly(v)
    ensures Rightly(w)
  {
  }

  /** In every run, all requests wait for entries that ask for what they want. */
  lemma {:induction false} AlwaysRightly(lim: Limits, ops: seq<Op>, states: seq<View>, n: nat)
    requires IsRun(lim, ops, states) && Idle(states[0]) && n < |states|
    ensures Rightly(states[n])
    decreases n
  {
    hide Sound, Follows, Rightly;
    if n == 0 {
      IdleRightly(states[0]);
    } else {
      AlwaysRightly(lim, ops, states, n - 1);
      assert Follows(lim, states[n - 1], ops[n - 1], states[n - 1 + 1]);
      RightlyStep(lim, states[n - 1], ops[n - 1], states[n]);
    }
  }

  lemma IdleRightly(v: View)
    requires Idle(v)
    ensures Rightly(v)
  {
  }

  // ---------------------------------------------------------------- where addresses come from

  /** Packet `m` is a response from the server that entry `e` asks, to a question for a name that fits its name and for
      its family, and has this address in one of its answers. */
  ghost predicate Brings(m: Message, sender: set<nat>, e: Entry, address: seq<Byte>) {
    && |m| >= HEADER + QUESTION && AskedUnder(e, U16(m, 0)) && e.server in sender && m[2] >= 128 && m[3] % 16 == 0
    && (exists labels :: NameAt(m, HEADER, labels) && Fits(DnsResponse.Query(e.name), 0, labels)
                         && QuestionMatches(m, NameEnd(HEADER, labels), AsksV6(e.family)))
    && (exists q, ttl :: RecordAt(m, q, AsksV6(e.family), ttl, address))
  }

  lemma AnswerBrings(m: Message, sender: set<nat>, e: Entry)
    requires |m| >= HEADER + QUESTION && AskedUnder(e, U16(m, 0)) && Says(m, sender, e).Answered?
    ensures Brings(m, sender, e, Says(m, sender, e).address)
  {
    hide Reading, NameAt, Fits, QuestionMatches, RecordAt, U16;
    var labels, end := ReadingIs(m, e.name, e.family, e.server in sender);
  }

  lemma {:induction false} GivenIs(given: map<nat, seq<Byte>>, q: seq<Request>, i: nat, address: seq<Byte>, n: nat, id: nat)
    requires n <= |q|
    ensures var so := GivenTo(given, q, i, address, n);
      if exists r :: 0 <= r < n && q[r] == Pending(id, i) then id in so && so[id] == address
      else (id in so <==> id in given) && (id in given ==> so[id] == given[id])
    decreases n
  {
    if n > 0 {
      GivenIs(given, q, i, address, n - 1, id);
      if q[n - 1] != Pending(id, i) {
        assert forall r :: 0 <= r < n && q[r] == Pending(id, i) ==> r < n - 1;
      }
    }
  }

  /** Those who have been told an address are those called with one. */
  ghost predicate GivenAreFound(v: View) {
    forall id :: id in v.given <==> v.found[id] > 0
  }

  /** An event tells a request an address only if it is a packet with that address for the entry it waits for; an address
      once told stays. */
  ghost predicate GivesRightly(v: View, op: Op, w: View, id: nat)
    requires id in w.given
  {
    if id in v.given then w.given[id] == v.given[id]
    else
      && op.Packet?
      && exists r :: 0 <= r < |v.requests| && v.requests[r].Pending? && v.requests[r].id == id
                     && v.requests[r].idx < |v.table|
                     && Brings(op.m, op.sender, v.table[v.requests[r].idx], w.given[id])
  }

  /** One answer and one request. */
  lemma AnswerGives(lim: Limits, v: View, i: nat, address: seq<Byte>, w: View, id: nat)
    requires Sound(lim, v) && Sound(lim, w) && GivenAreFound(v) && i < |v.table|
    requires w.requests == Cleared(v.requests, i) && w.failed == v.failed && w.accepted == v.accepted
    requires w.given == GivenTo(v.given, v.requests, i, address, |v.requests|)
    ensures id in w.given <==> w.found[id] > 0
    ensures id in w.given ==> if id in v.given then w.given[id] == v.given[id]
      else w.given[id] == address && exists r :: 0 <= r < |v.requests| && v.requests[r] == Pending(id, i)
  {
    GivenIs(v.given, v.requests, i, address, |v.requests|, id);
    hide GivenTo, Waiting, PortsUsed, DistinctTxids, AllInRange, Answerable;
    if r :| 0 <= r < |v.requests| && v.requests[r] == Pending(id, i) {
      WaitsOnce(v.requests, v.found, v.failed, v.accepted, r, i);
    } else {
      WaitingSame(v.requests, w.requests, id);
    }
  }

  lemma HandledGives(lim: Limits, v: View, i: nat, outcome: Outcome, w: View, id: nat)
    requires Sound(lim, v) && Sound(lim, w) && GivenAreFound(v) && i < |v.table| && HandledOn(lim, v, i, outcome, w)
    ensures id in w.given <==> w.found[id] > 0
    ensures id in w.given ==> if id in v.given then w.given[id] == v.given[id]
      else outcome.Answered? && w.given[id] == outcome.address
           && exists r :: 0 <= r < |v.requests| && v.requests[r] == Pending(id, i)
  {
    hide Sound, GivenTo, Cleared;
    if outcome.Answered? {
      AnswerGives(lim, v, i, outcome.address, w, id);
    }
  }

  lemma PacketGives(lim: Limits, v: View, m: Message, sender: set<nat>, w: View, id: nat)
    requires Sound(lim, v) && Sound(lim, w) && GivenAreFound(v) && PacketOn(lim, v, m, sender, w)
    ensures id in w.given <==> w.found[id] > 0
    ensures id in w.given ==> GivesRightly(v, Packet(m, sender), w, id)
  {
    hide Sound, HandledOn, Reading, U16, Brings;
    if |m| >= HEADER + QUESTION && !Unasked(v.table, U16(m, 0)) {
      var i :| 0 <= i < |v.table| && AskedUnder(v.table[i], U16(m, 0)) && HandledOn(lim, v, i, Says(m, sender, v.table[i]), w);
      HandledGives(lim, v, i, Says(m, sender, v.table[i]), w, id);
      if Says(m, sender, v.table[i]).Answered? {
        AnswerBrings(m, sender, v.table[i]);
      }
    }
  }

  lemma QueryGives(lim: Limits, v: View, name: seq<Byte>, family: AddrType, canBind: bool, w: View)
    requires QueryOn(lim, v, name, family, canBind, w)
    ensures w.given == v.given && w.found == v.found
  {
    hide Acceptable, Usable, Duplicate, Cleared;
  }

  lemma StepGives(lim: Limits, v: View, op: Op, w: View, id: nat)
    requires Sound(lim, v) && Sound(lim, w) && GivenAreFound(v) && Follows(lim, v, op, w)
    ensures id in w.given <==> w.found[id] > 0
    ensures id in w.given ==> GivesRightly(v, op, w, id)
  {
    hide Sound, QueryOn, PacketOn, Known, Ticked, CalledFor, Brings;
    match op
    case Query(name, family, canBind) =>
      if w != v {
        QueryGives(lim, v, Plain(name), family, canBind, w);
      }
    case Packet(m, sender) => PacketGives(lim, v, m, sender, w, id);
    case _ =>
  }

  lemma {:induction false} AlwaysGiven(lim: Limits, ops: seq<Op>, states: seq<View>, n: nat)
    requires IsRun(lim, ops, states) && Idle(states[0]) && n < |states|
    ensures GivenAreFound(states[n])
    decreases n
  {
    hide Sound, Follows, GivesRightly;
    if n > 0 {
      AlwaysGiven(lim, ops, states, n - 1);
      assert Follows(lim, states[n - 1], ops[n - 1], states[n - 1 + 1]);
      forall id
        ensures id in states[n].given <==> states[n].found[id] > 0
      {
        StepGives(lim, states[n - 1], ops[n - 1], states[n], id);
      }
    }
  }

  /** Questions are never forgotten or changed. */
  lemma QuestionsStay(lim: Limits, v: View, op: Op, w: View)
    requires Sound(lim, v) && Follows(lim, v, op, w)
    ensures v.questions <= w.questions
  {
    hide Sound, Acceptable, Usable, Duplicate, Cleared, Known, Ticked, CalledFor, GivenTo, Reading;
  }

  /** Event `k` brought this address, from the server that was asked, for an entry that asked for what `q` wants. */
  ghost predicate BroughtAt(ops: seq<Op>, states: seq<View>, k: nat, q: Question, address: seq<Byte>) {
    && k < |ops| && k < |states| && ops[k].Packet?
    && exists e :: e in states[k].table && Brings(ops[k].m, ops[k].sender, e, address) && AsksFor(e, q)
  }

  lemma GivesForOwn(v: View, op: Op, w: View, id: nat)
    requires Rightly(v) && id in w.given && id !in v.given && GivesRightly(v, op, w, id)
    ensures op.Packet? && id < |v.questions|
    ensures exists e :: e in v.table && Brings(op.m, op.sender, e, w.given[id]) && AsksFor(e, v.questions[id])
  {
    hide Brings, AsksFor;
    var r :| 0 <= r < |v.requests| && v.requests[r].Pending? && v.requests[r].id == id
             && v.requests[r].idx < |v.table| && Brings(op.m, op.sender, v.table[v.requests[r].idx], w.given[id]);
    assert v.table[v.requests[r].idx] in v.table;
  }

  /** In every run, whoever is told an address is told the one that a response to the question for its own name held. */
  lemma {:induction false} ToldTheirOwn(lim: Limits, ops: seq<Op>, states: seq<View>, n: nat, id: nat)
    requires IsRun(lim, ops, states) && Idle(states[0]) && n < |states| && id in states[n].given
    ensures id < |states[n].questions|
    ensures exists k :: 0 <= k < n && BroughtAt(ops, states, k, states[n].questions[id], states[n].given[id])
    decreases n
  {
    hide Sound, Follows, GivesRightly, Rightly, AsksFor, Brings;
    if n > 0 {
      var v, w := states[n - 1], states[n];
      assert Follows(lim, v, ops[n - 1], states[n - 1 + 1]);
      AlwaysGiven(lim, ops, states, n - 1);
      AlwaysRightly(lim, ops, states, n - 1);
      StepGives(lim, v, ops[n - 1], w, id);
      QuestionsStay(lim, v, ops[n - 1], w);
      if id in v.given {
        GivenStays(v, ops[n - 1], w, id);
        ToldTheirOwn(lim, ops, states, n - 1, id);
        var k :| 0 <= k < n - 1 && BroughtAt(ops, states, k, v.questions[id], v.given[id]);
        assert BroughtAt(ops, states, k, w.questions[id], w.given[id]);
      } else {
        GivesForOwn(v, ops[n - 1], w, id);
        assert BroughtAt(ops, states, n - 1, w.questions[id], w.given[id]);
      }
    }
  }

  lemma GivenStays(v: View, op: Op, w: View, id: nat)
    requires id in w.given && id in v.given && GivesRightly(v, op, w, id)
    ensures w.given[id] == v.given[id]
  {
  }

  // ---------------------------------------------------------------- where the cache comes from

  /** A finished entry was finished before, or the packet has brought its address. */
  ghost predicate Finished(v: View, op: Op, w: View, i: nat) {
    && i < |v.table| == |w.table| && v.table[i].name == w.table[i].name
    && ((v.table[i].state.Done? && v.table[i].ipaddr == w.table[i].ipaddr)
        || (op.Packet? && Brings(op.m, op.sender, v.table[i], w.table[i].ipaddr)))
  }

  lemma TickFinishes(lim: Limits, v: View, w: View, i: nat)
    requires Sound(lim, v) && TickOn(lim, v, w) && i < |w.table| && w.table[i].state.Done?
    ensures Finished(v, TimerTick, w, i)
  {
    hide PortsUsed, DistinctTxids, Answerable, Accounted, CalledFor;
    assert InRange(lim, v.table[i]) && w.table[i] == Ticked(lim, v.servers, v.table[i]);
  }

  lemma QueryFinishes(lim: Limits, v: View, name: seq<Byte>, family: AddrType, canBind: bool, w: View, i: nat)
    requires QueryOn(lim, v, name, family, canBind, w) && i < |w.table| && w.table[i].state.Done?
    ensures i < |v.table| == |w.table| && v.table[i] == w.table[i]
  {
    hide Acceptable, Usable, Duplicate, Cleared, PortPicked, Age, PortsUsed, SharedOn, BegunOn, Emptied;
    if !Acceptable(v, name, family, canBind) {
      if w != v {
        var j :| Picked(v.table, v.seqno, j) && w == Emptied(lim, v, name, family, j);
        EmptiedFinishes(lim, v, name, family, j, i);
      }
    } else if exists j :: 0 <= j < |v.table| && Duplicate(v.table[j], name, family) {
      var d, r :| SharedOn(v, name, family, d, r, w);
      SharedFinishes(v, name, family, d, r, w);
    } else {
      var j, r, k :| BegunOn(lim, v, name, family, canBind, j, r, k, w);
      BegunFinishes(lim, v, name, family, canBind, j, r, k, w, i);
    }
  }

  lemma EmptiedFinishes(lim: Limits, v: View, name: seq<Byte>, family: AddrType, j: nat, i: nat)
    requires j < |v.table|
    ensures var w := Emptied(lim, v, name, family, j);
      |v.table| == |w.table| && (i < |w.table| && w.table[i].state.Done? ==> v.table[i] == w.table[i])
  {
  }

  lemma SharedFinishes(v: View, name: seq<Byte>, family: AddrType, d: nat, r: nat, w: View)
    requires SharedOn(v, name, family, d, r, w)
    ensures w.table == v.table
  {
  }

  lemma BegunFinishes(lim: Limits, v: View, name: seq<Byte>, family: AddrType, canBind: bool, j: nat, r: nat, k: nat,
                      w: View, i: nat)
    requires BegunOn(lim, v, name, family, canBind, j, r, k, w) && i < |w.table| && w.table[i].state.Done?
    ensures i < |v.table| == |w.table| && v.table[i] == w.table[i]
  {
    hide Usable, PortPicked, Cleared;
  }

  lemma PacketFinishes(lim: Limits, v: View, m: Message, sender: set<nat>, w: View, i: nat)
    requires PacketOn(lim, v, m, sender, w) && i < |w.table| && w.table[i].state.Done?
    ensures Finished(v, Packet(m, sender), w, i)
  {
    hide Reading, U16, Brings, HandledOn, Finished;
    if |m| >= HEADER + QUESTION && !Unasked(v.table, U16(m, 0)) {
      var j :| 0 <= j < |v.table| && AskedUnder(v.table[j], U16(m, 0)) && HandledOn(lim, v, j, Says(m, sender, v.table[j]), w);
      if Says(m, sender, v.table[j]).Answered? {
        AnswerBrings(m, sender, v.table[j]);
      }
      HandledFinishes(lim, v, m, sender, j, Says(m, sender, v.table[j]), w, i);
    } else {
      SameFinishes(v, Packet(m, sender), i);
    }
  }

  lemma SameFinishes(v: View, op: Op, i: nat)
    requires i < |v.table| && v.table[i].state.Done?
    ensures Finished(v, op, v, i)
  {
  }

  lemma HandledFinishes(lim: Limits, v: View, m: Message, sender: set<nat>, j: nat, outcome: Outcome, w: View, i: nat)
    requires j < |v.table| && HandledOn(lim, v, j, outcome, w) && i < |w.table| && w.table[i].state.Done?
    requires v.table[j].state.Asking?
    requires outcome.Answered? ==> Brings(m, sender, v.table[j], outcome.address)
    ensures Finished(v, Packet(m, sender), w, i)
  {
    hide Brings, GivenTo, Cleared, QueryOf;
  }

  lemma StepFinishes(lim: Limits, v: View, op: Op, w: View, i: nat)
    requires Sound(lim, v) && Follows(lim, v, op, w) && i < |w.table| && w.table[i].state.Done?
    ensures Finished(v, op, w, i)
  {
    hide Sound, QueryOn, PacketOn, TickOn, Known, Brings;
    match op
    case Query(name, family, canBind) =>
      if w != v {
        QueryFinishes(lim, v, Plain(name), family, canBind, w, i);
      }
    case TimerTick => TickFinishes(lim, v, w, i);
    case Packet(m, sender) => PacketFinishes(lim, v, m, sender, w, i);
    case Server(k, isSet) =>
  }

  /** Event `k` brought this address for an entry of this name. */
  ghost predicate FilledAt(ops: seq<Op>, states: seq<View>, k: nat, name: seq<Byte>, address: seq<Byte>) {
    && k < |ops| && k < |states| && ops[k].Packet?
    && exists e :: e in states[k].table && e.name == name && Brings(ops[k].m, ops[k].sender, e, address)
  }

  /** In every run, the address of a finished entry came in a response to the question for its name. */
  lemma {:induction false} CacheCameFrom(lim: Limits, ops: seq<Op>, states: seq<View>, n: nat, i: nat)
    requires IsRun(lim, ops, states) && Idle(states[0])
    requires n < |states| && i < |states[n].table| && states[n].table[i].state.Done?
    ensures exists k :: 0 <= k < n && FilledAt(ops, states, k, states[n].table[i].name, states[n].table[i].ipaddr)
    decreases n
  {
    hide Sound, Follows, Brings;
    if n > 0 {
      var v, w := states[n - 1], states[n];
      assert Follows(lim, v, ops[n - 1], states[n - 1 + 1]);
      StepFinishes(lim, v, ops[n - 1], w, i);
      if v.table[i].state.Done? && v.table[i].ipaddr == w.table[i].ipaddr {
        CacheCameFrom(lim, ops, states, n - 1, i);
      } else {
        assert v.table[i] in v.table;
        assert FilledAt(ops, states, n - 1, w.table[i].name, w.table[i].ipaddr);
      }
    }
  }

  /** In every run, an address that the cache gives for a name came in a response to the question for that name, up to
      case, and is of a family that was wanted. */
  lemma KnownCameFrom(lim: Limits, ops: seq<Op>, states: seq<View>, n: nat, name: seq<Byte>, family: AddrType)
    requires IsRun(lim, ops, states) && Idle(states[0]) && n < |states| && Known(states[n].table, name, family).Some?
    ensures var address := Known(states[n].table, name, family).value;
      && Wanted(family, |address| == 16)
      && exists k, own :: 0 <= k < n && Alike(name, own) && FilledAt(ops, states, k, own, address)
  {
    hide Sound, Follows, FilledAt, CachedFrom, IsRun;
    var t := states[n].table;
    var j, v6 :| 0 <= j < |t| && Cached(t[j], name, v6) && Wanted(family, v6) && Known(t, name, family).value == t[j].ipaddr;
    SameIsAlike(name, t[j].name);
    CacheCameFrom(lim, ops, states, n, j);
  }

  // ---------------------------------------------------------------- answers arrive

  /** A response from the server that was asked, with an address of the wanted family in its answers, reaches every request
      that waits for the name, and tells it that address. */
  lemma AnswerReaches(lim: Limits, v: View, m: Message, sender: set<nat>, w: View, i: nat, labels: seq<seq<Byte>>,
                      records: seq<Record>, r: nat)
    requires Sound(lim, v) && Sound(lim, w) && PacketOn(lim, v, m, sender, w)
    requires labels != [] && AllGood(labels) && AllOk(records) && i < |v.table| && v.table[i].name == Dotted(labels)
    requires IsResponse(m, labels, AsksV6(v.table[i].family), records) && m[3] % 16 == 0
    requires FirstAddress(records, AsksV6(v.table[i].family)).Answered?
    requires AskedUnder(v.table[i], U16(m, 0)) && v.table[i].server in sender
    requires r < |v.requests| && v.requests[r].Pending? && v.requests[r].idx == i
    ensures w.requests == Cleared(v.requests, i) && w.found[v.requests[r].id] == 1
    ensures v.requests[r].id in w.given
    ensures w.given[v.requests[r].id] == FirstAddress(records, AsksV6(v.table[i].family)).address
  {
    ResponseRead(m, labels, v.table[i].family, records);
    WaitsOnce(v.requests, v.found, v.failed, v.accepted, r, i);
    OnlyOne(v.table, i);
    var address := FirstAddress(records, AsksV6(v.table[i].family)).address;
    GivenIs(v.given, v.requests, i, address, |v.requests|, v.requests[r].id);
    assert v.requests[r] == Pending(v.requests[r].id, i);
    hide Reading, Waiting, Cleared, PortsUsed, Answerable, AllInRange, IsResponse, U16, Dotted, FirstAddress, DistinctTxids,
      GivenTo;
    assert HandledOn(lim, v, i, Says(m, sender, v.table[i]), w);
  }
}
