/** What the events of the DNS resolver do to a query, from its start to its end: queries are shared, errors and missing
    addresses send it on, and its time on each server and in the cache is fixed. */
module DnsLaws {
  import opened Octets
  import opened Options
  import opened DnsTable
  import opened DnsNames
  import opened DnsResponse
  import opened DnsSteps
  import opened DnsCallbacks

  // ---------------------------------------------------------------- queries

  /** The query was accepted. */
  ghost predicate Taken(v: View, w: View, name: seq<Byte>, family: AddrType) {
    w.accepted == v.accepted + 1 && w.questions == v.questions + [Question(name, family)]
  }

  /** Entry `e` is asked at the first server, from the start. */
  predicate FromTheStart(e: Entry, name: seq<Byte>, family: AddrType) {
    e.state.Asking? && e.name == name && e.family == family && e.server == 0 && e.tmr == 1 && e.retries == 0
  }

  /** Who asks for a name and family that is being asked already adds nothing to the table. */
  lemma SharesQuery(lim: Limits, v: View, name: seq<Byte>, family: AddrType, canBind: bool, w: View, i: nat)
    requires Sound(lim, v) && Follows(lim, v, Op.Query(name, family, canBind), w) && w.accepted != v.accepted
    requires i < |v.table| && v.table[i].state.Asking? && Alike(Plain(name), v.table[i].name) && v.table[i].family == family
    ensures Taken(v, w, Plain(name), family) && w.table == v.table && w.pcbs == v.pcbs && w.sent == v.sent
  {
    hide Sound, Known, Acceptable, BegunOn, SameName, Emptied, Picked;
    AlikeIsSame(Plain(name), v.table[i].name);
    assert Duplicate(v.table[i], Plain(name), family);
    RefusedAccepts(lim, v, Plain(name), family, w);
  }

  lemma AlikeIsSame(a: seq<Byte>, b: seq<Byte>)
    ensures Alike(a, b) ==> SameName(a, b)
  {
    if Alike(a, b) {
      forall j | 0 <= j < |a|
        ensures Lower(a[j]) == Lower(b[j])
      {
        assert SameLetter(a[j], b[j]);
      }
    }
  }

  lemma RefusedAccepts(lim: Limits, v: View, name: seq<Byte>, family: AddrType, w: View)
    ensures RefusedOn(lim, v, name, family, w) ==> w.accepted == v.accepted
  {
    hide Usable, Age;
  }

  /** Who asks for anything else starts a query of its own, at the first server, in an unused entry, or else in the oldest of
      the finished ones. */
  lemma StartsQuery(lim: Limits, v: View, name: seq<Byte>, family: AddrType, canBind: bool, w: View) returns (i: nat)
    requires Sound(lim, v) && Follows(lim, v, Op.Query(name, family, canBind), w) && w.accepted != v.accepted
    requires forall j :: 0 <= j < |v.table| && v.table[j].state.Asking? && v.table[j].family == family ==>
               !Alike(Plain(name), v.table[j].name)
    ensures Taken(v, w, Plain(name), family) && i < |v.table| && !v.table[i].state.Asking?
    ensures |w.table| == |v.table| && FromTheStart(w.table[i], Plain(name), family)
    ensures v.table[i].state.Done? ==> forall j :: 0 <= j < |v.table| ==>
      !v.table[j].state.Unused? && (v.table[j].state.Done? ==> Age(v.seqno, v.table[j].seqno) <= Age(v.seqno, v.table[i].seqno))
    ensures w.table == v.table[i := w.table[i]] && w.sent == v.sent + [QueryOf(w.table[i])]
    ensures exists r :: 0 <= r < |v.requests| && v.requests[r].Free? && w.requests == v.requests[r := Pending(v.accepted, i)]
  {
    assert |v.servers| > 0;
    hide Sound, Known, Acceptable, SameName, Alike, Emptied, BegunOn, QueryOf;
    forall j | 0 <= j < |v.table|
      ensures !Duplicate(v.table[j], Plain(name), family)
    {
      SameIsAlike(Plain(name), v.table[j].name);
    }
    RefusedAccepts(lim, v, Plain(name), family, w);
    var x, r, k :| BegunOn(lim, v, Plain(name), family, canBind, x, r, k, w);
    i := x;
    BegunStarts(lim, v, Plain(name), family, canBind, x, r, k, w);
  }

  lemma BegunStarts(lim: Limits, v: View, name: seq<Byte>, family: AddrType, canBind: bool, i: nat, r: nat, k: nat, w: View)
    requires BegunOn(lim, v, name, family, canBind, i, r, k, w) && |v.servers| > 0 && v.servers[0]
    ensures Taken(v, w, name, family) && i < |v.table| && !v.table[i].state.Asking?
    ensures |w.table| == |v.table| && FromTheStart(w.table[i], name, family)
    ensures v.table[i].state.Done? ==> forall j :: 0 <= j < |v.table| ==>
      !v.table[j].state.Unused? && (v.table[j].state.Done? ==> Age(v.seqno, v.table[j].seqno) <= Age(v.seqno, v.table[i].seqno))
    ensures w.table == v.table[i := w.table[i]] && w.sent == v.sent + [QueryOf(w.table[i])]
    ensures r < |v.requests| && v.requests[r].Free? && w.requests == v.requests[r := Pending(v.accepted, i)]
  {
    hide QueryOf, Behind, Age;
  }

  /** A dot at the end of a name makes no difference. */
  lemma DotAtEnd(lim: Limits, v: View, name: seq<Byte>, family: AddrType, canBind: bool, w: View)
    requires Sound(lim, v) && name != [] && name[|name| - 1] != DOT
    ensures Follows(lim, v, Op.Query(name + [DOT], family, canBind), w) <==> Follows(lim, v, Op.Query(name, family, canBind), w)
    ensures Known(v.table, Plain(name + [DOT]), family) == Known(v.table, name, family)
  {
    hide Sound, Known, QueryOn;
    assert (name + [DOT])[..|name|] == name;
  }

  // ---------------------------------------------------------------- packets that bring no address

  /** Packet `m` reaches entry `i` and no other. */
  lemma Reaches(lim: Limits, v: View, m: Message, sender: set<nat>, w: View, i: nat)
    requires Sound(lim, v) && PacketOn(lim, v, m, sender, w)
    requires i < |v.table| && |m| >= HEADER + QUESTION && AskedUnder(v.table[i], U16(m, 0))
    ensures HandledOn(lim, v, i, Says(m, sender, v.table[i]), w)
  {
    OnlyOne(v.table, i);
    hide HandledOn, Reading, U16, DistinctTxids, PortsUsed, Answerable, Accounted;
  }

  /** A response to the question that entry `i` asks, from the server that it asks. */
  ghost predicate Responds(v: View, m: Message, sender: set<nat>, i: nat, labels: seq<seq<Byte>>, records: seq<Record>) {
    && i < |v.table| && |m| >= HEADER + QUESTION && AskedUnder(v.table[i], U16(m, 0)) && v.table[i].server in sender
    && labels != [] && AllGood(labels) && AllOk(records) && v.table[i].name == Dotted(labels)
    && IsResponse(m, labels, AsksV6(v.table[i].family), records)
  }

  /** An error sends the query to the next server if there is one; nobody is called. Otherwise everybody who waits is called
      without an address. */
  lemma ErrorGoesOn(lim: Limits, v: View, m: Message, sender: set<nat>, w: View, i: nat, labels: seq<seq<Byte>>,
                    records: seq<Record>)
    requires Sound(lim, v) && PacketOn(lim, v, m, sender, w)
    requires Responds(v, m, sender, i, labels, records) && m[3] % 16 != 0
    ensures |w.table| == |v.table| && w.found == v.found
    ensures var e := v.table[i];
      if e.server + 1 < lim.servers && v.servers[e.server + 1]
      then && w == v.(table := v.table[i := w.table[i]], sent := v.sent + [QueryOf(w.table[i])])
           && w.table[i] == e.(server := e.server + 1, tmr := 1, retries := 0)
      else !w.table[i].state.Asking? && w.requests == Cleared(v.requests, i)
  {
    hide Reading, IsResponse, U16, Dotted, DistinctTxids, PortsUsed, Answerable, Accounted, Cleared, HandledOn;
    ResponseRead(m, labels, v.table[i].family, records);
    Reaches(lim, v, m, sender, w, i);
    assert v.table[i].server in sender;
    RefusedHandled(lim, v, i, w);
  }

  lemma RefusedHandled(lim: Limits, v: View, i: nat, w: View)
    requires i < |v.table| && HandledOn(lim, v, i, Refused, w)
    ensures |w.table| == |v.table| && w.found == v.found
    ensures var e := v.table[i];
      if e.server + 1 < |v.servers| && v.servers[e.server + 1]
      then && w == v.(table := v.table[i := w.table[i]], sent := v.sent + [QueryOf(w.table[i])])
           && w.table[i] == e.(server := e.server + 1, tmr := 1, retries := 0)
      else !w.table[i].state.Asking? && w.requests == Cleared(v.requests, i)
  {
    hide Cleared;
  }

  /** A response without an address of the first of two families starts the query again for the second one; nobody is
      called. Without a second one everybody who waits is called without an address. */
  lemma FallsBack(lim: Limits, v: View, m: Message, sender: set<nat>, w: View, i: nat, labels: seq<seq<Byte>>,
                  records: seq<Record>)
    requires Sound(lim, v) && PacketOn(lim, v, m, sender, w)
    requires Responds(v, m, sender, i, labels, records) && m[3] % 16 == 0
    requires forall k :: 0 <= k < |records| ==> !records[k].Holds(AsksV6(v.table[i].family))
    ensures |w.table| == |v.table| && w.found == v.found
    ensures var e := v.table[i];
      if e.family.TwoFamilies() && v.servers[0]
      then && w == v.(table := v.table[i := w.table[i]], sent := v.sent + [QueryOf(w.table[i])])
           && AsksV6(w.table[i].family) != AsksV6(e.family)
           && !w.table[i].family.TwoFamilies() && FromTheStart(w.table[i], e.name, w.table[i].family)
      else !w.table[i].state.Asking? && w.requests == Cleared(v.requests, i)
  {
    hide Reading, IsResponse, U16, Dotted, DistinctTxids, PortsUsed, Answerable, Accounted, Cleared, HandledOn, FirstAddress;
    ResponseRead(m, labels, v.table[i].family, records);
    NoFirst(records, AsksV6(v.table[i].family));
    Reaches(lim, v, m, sender, w, i);
    assert v.table[i].server in sender;
    NoneHandled(lim, v, i, w);
  }

  lemma NoneHandled(lim: Limits, v: View, i: nat, w: View)
    requires i < |v.table| && |v.servers| > 0 && HandledOn(lim, v, i, NoAddress, w)
    ensures |w.table| == |v.table| && w.found == v.found
    ensures var e := v.table[i];
      if e.family.TwoFamilies() && v.servers[0]
      then && w == v.(table := v.table[i := w.table[i]], sent := v.sent + [QueryOf(w.table[i])])
           && AsksV6(w.table[i].family) != AsksV6(e.family)
           && !w.table[i].family.TwoFamilies() && FromTheStart(w.table[i], e.name, w.table[i].family)
      else !w.table[i].state.Asking? && w.requests == Cleared(v.requests, i)
  {
    hide Cleared;
  }

  lemma {:induction false} NoFirst(records: seq<Record>, v6: bool)
    requires forall k :: 0 <= k < |records| ==> !records[k].Holds(v6)
    ensures FirstAddress(records, v6) == NoAddress
  {
    if records != [] {
      NoFirst(records[1..], v6);
    }
  }

  // ---------------------------------------------------------------- the passing of time

  /** An entry after `n` ticks. */
  ghost function AfterTicks(lim: Limits, servers: seq<bool>, e: Entry, n: nat): Entry
    requires lim.Ok() && |servers| == lim.servers && InRange(lim, e)
    decreases n
  {
    if n == 0 then e
    else
      TickedInRange(lim, servers, e);
      AfterTicks(lim, servers, Ticked(lim, servers, e), n - 1)
  }

  lemma TickedInRange(lim: Limits, servers: seq<bool>, e: Entry)
    requires lim.Ok() && |servers| == lim.servers && InRange(lim, e)
    ensures InRange(lim, Ticked(lim, servers, e))
  {
  }

  /** The next server, if there is one. */
  predicate HasNext(lim: Limits, servers: seq<bool>, e: Entry)
    requires |servers| == lim.servers
  {
    e.server + 1 < lim.servers && servers[e.server + 1]
  }

  /** The ticks that are left on this server. */
  function LeftHere(lim: Limits, e: Entry): nat {
    e.tmr + From(e.retries + 1, lim.retries)
  }

  /** One tick of an entry that is being asked: the last one on its server, or one less. */
  lemma OneTick(lim: Limits, servers: seq<bool>, e: Entry)
    requires lim.Ok() && |servers| == lim.servers && InRange(lim, e) && e.state.Asking? && servers[e.server]
    ensures var next, left := Ticked(lim, servers, e), LeftHere(lim, e);
      && left >= 1 && InRange(lim, next)
      && (left > 1 ==> && next.state.Asking? && next.server == e.server && LeftHere(lim, next) == left - 1
                       && next.retries == (if e.tmr > 1 then e.retries else e.retries + 1)
                       && next == e.(tmr := next.tmr, retries := next.retries)
                       && (Resent(lim, servers, e) <==> e.tmr == 1))
      && (left == 1 ==> && e.retries + 1 == lim.retries
                        && if HasNext(lim, servers, e) then next == e.(server := e.server + 1, tmr := 1, retries := 0)
                           else next.state.Unused?)
      && (left == 1 ==> (Resent(lim, servers, e) <==> HasNext(lim, servers, e)))
  {
    hide TicksLeft, ServerTime;
  }

  /** Unanswered, an entry stays with its server for 1 + 1 + 2 + ... + (R - 1) ticks, not one less and not one more. Then it
      goes to the next server, or is given up if there is none. */
  lemma {:induction false} TimeOnServer(lim: Limits, servers: seq<bool>, e: Entry, n: nat)
    requires lim.Ok() && |servers| == lim.servers && InRange(lim, e) && e.state.Asking? && servers[e.server]
    ensures var left, last := LeftHere(lim, e), AfterTicks(lim, servers, e, n);
      && (n < left ==> last.state.Asking? && last.server == e.server)
      && (n == left && HasNext(lim, servers, e) ==> last == e.(server := e.server + 1, tmr := 1, retries := 0))
      && (n == left && !HasNext(lim, servers, e) ==> last.state.Unused?)
    ensures e.tmr == 1 && e.retries == 0 ==> LeftHere(lim, e) == ServerTime(lim)
    decreases n
  {
    OneTick(lim, servers, e);
    hide Ticked, TicksLeft, LeftHere;
    if n > 0 && LeftHere(lim, e) > 1 {
      TimeOnServer(lim, servers, Ticked(lim, servers, e), n - 1);
    }
    FreshTime(lim, e);
  }

  lemma FreshTime(lim: Limits, e: Entry)
    requires lim.Ok()
    ensures e.tmr == 1 && e.retries == 0 ==> LeftHere(lim, e) == ServerTime(lim)
  {
  }

  /** How often an entry is asked again in `n` ticks. */
  ghost function Resends(lim: Limits, servers: seq<bool>, e: Entry, n: nat): nat
    requires lim.Ok() && |servers| == lim.servers && InRange(lim, e)
    decreases n
  {
    if n == 0 then 0
    else
      TickedInRange(lim, servers, e);
      (if Resent(lim, servers, e) then 1 else 0) + Resends(lim, servers, Ticked(lim, servers, e), n - 1)
  }

  /** In its time on a server an entry is asked R times there, the first query included; with the last tick it is asked at
      the next server. */
  lemma {:induction false} ResendsOnServer(lim: Limits, servers: seq<bool>, e: Entry)
    requires lim.Ok() && |servers| == lim.servers && InRange(lim, e) && e.state.Asking? && servers[e.server]
    ensures Resends(lim, servers, e, LeftHere(lim, e))
            == lim.retries - 1 - e.retries + if HasNext(lim, servers, e) then 1 else 0
    decreases LeftHere(lim, e)
  {
    OneTick(lim, servers, e);
    hide Ticked, TicksLeft, LeftHere, Resent;
    var next := Ticked(lim, servers, e);
    if LeftHere(lim, e) > 1 {
      ResendsOnServer(lim, servers, next);
    }
  }

  /** A finished entry is kept for the seconds of its time to live. */
  lemma {:induction false} TimeInCache(lim: Limits, servers: seq<bool>, e: Entry, n: nat)
    requires lim.Ok() && |servers| == lim.servers && InRange(lim, e) && e.state.Done? && 0 < e.ttl
    ensures n < e.ttl ==> AfterTicks(lim, servers, e, n) == e.(ttl := e.ttl - n)
    ensures n >= e.ttl ==> AfterTicks(lim, servers, e, n).state.Unused?
    decreases n
  {
    if n > 0 {
      var next := Ticked(lim, servers, e);
      TickedInRange(lim, servers, e);
      if e.ttl > 1 {
        TimeInCache(lim, servers, next, n - 1);
      } else {
        StaysUnused(lim, servers, next, n - 1);
      }
    }
  }

  lemma {:induction false} StaysUnused(lim: Limits, servers: seq<bool>, e: Entry, n: nat)
    requires lim.Ok() && |servers| == lim.servers && InRange(lim, e) && e.state.Unused?
    ensures AfterTicks(lim, servers, e, n) == e
    decreases n
  {
    if n > 0 {
      StaysUnused(lim, servers, e, n - 1);
    }
  }

  /** The 8-bit age of an entry is the number of queries since, as long as they are fewer than 256. */
  lemma AgeCounts(seqno: nat, queries: nat)
    requires seqno < 256 && queries < 256
    ensures Age((seqno + queries) % 256, seqno) == queries
  {
  }

  // ---------------------------------------------------------------- the cache

  /** A response with an address that may be kept puts it into the cache for its time to live, at most a week; with a time to
      live of 0 it is passed on only. */
  lemma AnswerIsKept(lim: Limits, v: View, m: Message, sender: set<nat>, w: View, i: nat, labels: seq<seq<Byte>>,
                     records: seq<Record>)
    requires Sound(lim, v) && PacketOn(lim, v, m, sender, w)
    requires Responds(v, m, sender, i, labels, records) && m[3] % 16 == 0
    requires FirstAddress(records, AsksV6(v.table[i].family)).Answered?
    ensures |w.table| == |v.table| && w.table == v.table[i := w.table[i]]
    ensures var first, e := FirstAddress(records, AsksV6(v.table[i].family)), w.table[i];
      if first.ttl == 0 then e.state.Unused?
      else e.state.Done? && e.name == v.table[i].name && e.ipaddr == first.address
           && e.ttl <= 604800 && (e.ttl == first.ttl || (e.ttl == 604800 && first.ttl > 604800))
  {
    hide Reading, IsResponse, U16, Dotted, DistinctTxids, PortsUsed, Answerable, Accounted, Cleared, HandledOn, FirstAddress;
    ResponseRead(m, labels, v.table[i].family, records);
    Reaches(lim, v, m, sender, w, i);
    assert v.table[i].server in sender;
    AnsweredHandled(lim, v, i, FirstAddress(records, AsksV6(v.table[i].family)), w);
  }

  lemma AnsweredHandled(lim: Limits, v: View, i: nat, first: Outcome, w: View)
    requires i < |v.table| && first.Answered? && HandledOn(lim, v, i, first, w)
    ensures |w.table| == |v.table| && w.table == v.table[i := w.table[i]]
    ensures var e := w.table[i];
      if first.ttl == 0 then e.state.Unused?
      else e.state.Done? && e.name == v.table[i].name && e.ipaddr == first.address
           && e.ttl <= 604800 && (e.ttl == first.ttl || (e.ttl == 604800 && first.ttl > 604800))
  {
    hide Cleared, GivenTo;
  }

  // ---------------------------------------------------------------- what is sent

  /** The question of every asked entry has been sent, under its id, to the server that it asks. */
  ghost predicate AllSent(v: View) {
    forall i :: 0 <= i < |v.table| && v.table[i].state.Asking? ==> QueryOf(v.table[i]) in v.sent
  }

  lemma {:induction false} TickSent(lim: Limits, servers: seq<bool>, t: seq<Entry>, n: nat, i: nat)
    requires lim.Ok() && |servers| == lim.servers && i < n <= |t| && AllInRange(lim, t) && Resent(lim, servers, t[i])
    ensures QueryOf(Ticked(lim, servers, t[i])) in TickSends(lim, servers, t, n)
    decreases n
  {
    hide QueryOf, Ticked, Resent;
    if i < n - 1 {
      TickSent(lim, servers, t, n - 1, i);
    }
  }

  lemma TickSendsAll(lim: Limits, v: View, w: View)
    requires Sound(lim, v) && TickOn(lim, v, w) && AllSent(v)
    ensures AllSent(w)
  {
    hide Accounted, PortsUsed, DistinctTxids, Answerable, CalledFor, QueryOf, Ticked, TickSends;
    forall i | 0 <= i < |w.table| && w.table[i].state.Asking?
      ensures QueryOf(w.table[i]) in w.sent
    {
      assert InRange(lim, v.table[i]) && w.table[i] == Ticked(lim, v.servers, v.table[i]);
      SameQuery(lim, v.servers, v.table[i]);
      if Resent(lim, v.servers, v.table[i]) {
        TickSent(lim, v.servers, v.table, |v.table|, i);
      }
    }
  }

  /** An entry that a tick does not ask again stands for the same query as before. */
  lemma SameQuery(lim: Limits, servers: seq<bool>, e: Entry)
    requires lim.Ok() && |servers| == lim.servers && InRange(lim, e)
    ensures Ticked(lim, servers, e).state.Asking? ==>
      e.state.Asking? && (Resent(lim, servers, e) || QueryOf(Ticked(lim, servers, e)) == QueryOf(e))
  {
    hide TicksLeft;
  }

  /** One entry has changed, and is not asked or has just been sent. */
  lemma OneSent(v: View, i: nat, w: View)
    requires AllSent(v) && i < |v.table| == |w.table| && w.table == v.table[i := w.table[i]] && v.sent <= w.sent
    requires w.table[i].state.Asking? ==> QueryOf(w.table[i]) in w.sent
    ensures AllSent(w)
  {
    hide QueryOf;
  }

  lemma AskedSends(lim: Limits, v: View, i: nat, e: Entry, w: View)
    requires Asked(lim, v, i, e, w) && AllSent(v.(table := v.table[i := e.(state := Unused)]))
    ensures AllSent(w)
  {
    hide QueryOf, Cleared;
    var b := v.(table := v.table[i := e.(state := Unused)]);
    assert w.table == b.table[i := w.table[i]];
    OneSent(b, i, w);
  }

  lemma QuerySendsAll(lim: Limits, v: View, name: seq<Byte>, family: AddrType, canBind: bool, w: View)
    requires QueryOn(lim, v, name, family, canBind, w) && AllSent(v)
    ensures AllSent(w)
  {
    hide Acceptable, Usable, Duplicate, Cleared, PortPicked, Age, SharedOn, BegunOn, Emptied, QueryOf, AllSent;
    if !Acceptable(v, name, family, canBind) {
      if w != v {
        var j :| Picked(v.table, v.seqno, j) && w == Emptied(lim, v, name, family, j);
        EmptiedSends(lim, v, name, family, j);
      }
    } else if exists j :: 0 <= j < |v.table| && Duplicate(v.table[j], name, family) {
      var d, r :| SharedOn(v, name, family, d, r, w);
      SharedSends(v, name, family, d, r, w);
    } else {
      var j, r, k :| BegunOn(lim, v, name, family, canBind, j, r, k, w);
      BegunSends(lim, v, name, family, canBind, j, r, k, w);
    }
  }

  lemma EmptiedSends(lim: Limits, v: View, name: seq<Byte>, family: AddrType, j: nat)
    requires j < |v.table| && AllSent(v)
    ensures AllSent(Emptied(lim, v, name, family, j))
  {
    hide QueryOf;
  }

  lemma SharedSends(v: View, name: seq<Byte>, family: AddrType, d: nat, r: nat, w: View)
    requires SharedOn(v, name, family, d, r, w) && AllSent(v)
    ensures AllSent(w)
  {
    hide QueryOf, Duplicate;
  }

  lemma BegunSends(lim: Limits, v: View, name: seq<Byte>, family: AddrType, canBind: bool, j: nat, r: nat, k: nat, w: View)
    requires BegunOn(lim, v, name, family, canBind, j, r, k, w) && AllSent(v)
    ensures AllSent(w)
  {
    hide QueryOf, Usable, Asked, Age, Behind;
    var b := Begun(v, name, family, j, r, k);
    assert b.table[j := b.table[j].(state := Unused)] == v.table[j := b.table[j].(state := Unused)];
    AskedSends(lim, b, j, b.table[j], w);
  }

  lemma HandledSends(lim: Limits, v: View, i: nat, outcome: Outcome, w: View)
    requires i < |v.table| && HandledOn(lim, v, i, outcome, w) && AllSent(v)
    ensures AllSent(w)
  {
    hide QueryOf, Cleared, GivenTo;
    var e := v.table[i];
    if outcome.NoAddress? && e.family.TwoFamilies() {
      AskedSends(lim, v, i, e.(family := e.family.Second()), w);
    } else if !outcome.Ignored? {
      OneSent(v, i, w);
    }
  }

  lemma StepSends(lim: Limits, v: View, op: Op, w: View)
    requires Sound(lim, v) && Follows(lim, v, op, w) && AllSent(v)
    ensures AllSent(w)
  {
    hide Sound, QueryOn, TickOn, HandledOn, Known, QueryOf, Reading, U16;
    match op
    case Query(name, family, canBind) =>
      if w != v {
        QuerySendsAll(lim, v, Plain(name), family, canBind, w);
      }
    case TimerTick => TickSendsAll(lim, v, w);
    case Packet(m, sender) =>
      if w != v {
        var i :| 0 <= i < |v.table| && AskedUnder(v.table[i], U16(m, 0)) && HandledOn(lim, v, i, Says(m, sender, v.table[i]), w);
        HandledSends(lim, v, i, Says(m, sender, v.table[i]), w);
      }
    case Server(k, isSet) =>
  }

  /** In every run, whatever is asked has been sent to the server that is asked. */
  lemma {:induction false} AlwaysSent(lim: Limits, ops: seq<Op>, states: seq<View>, n: nat)
    requires IsRun(lim, ops, states) && Idle(states[0]) && n < |states|
    ensures AllSent(states[n])
    decreases n
  {
    hide Sound, Follows, QueryOf;
    if n > 0 {
      AlwaysSent(lim, ops, states, n - 1);
      assert Follows(lim, states[n - 1], ops[n - 1], states[n - 1 + 1]);
      StepSends(lim, states[n - 1], ops[n - 1], states[n]);
    }
  }

  // ---------------------------------------------------------------- from the query to the callback

  /** What a server sends back: the id and the question of the query, the flags of a response, and its answers. */
  function ReplyTo(query: seq<Byte>, records: seq<Record>): seq<Byte>
    requires |query| >= HEADER && AllOk(records) && |records| < 0x10000
  {
    query[..2] + [129, 0] + Two(1) + Two(|records|) + Two(0) + Two(0) + query[HEADER..] + Bytes(records)
  }

  lemma HasMiddle(a: seq<Byte>, b: seq<Byte>, c: seq<Byte>)
    requires |a + b + c| <= 0xFFFF
    ensures HasAt(a + b + c, |a|, b)
  {
    assert (a + b + c)[|a|..|a| + |b|] == b;
  }

  lemma QueryParts(txid: nat, name: seq<Byte>, family: AddrType)
    requires txid < TXIDS
    ensures var q := QueryHeader(txid) + QuestionBytes(name, family);
      q[..2] == Two(txid) && q[HEADER..] == QuestionBytes(name, family)
  {
    hide Two, QuestionBytes;
    var q := QueryHeader(txid) + QuestionBytes(name, family);
    assert q[HEADER..] == QuestionBytes(name, family);
    assert q[..2] == QueryHeader(txid)[..2] == Two(txid);
  }

  function ReplyHead(txid: nat, n: nat): (h: seq<Byte>)
    requires txid < TXIDS && n < 0x10000
    ensures |h| == HEADER && h[2] == 129 && h[3] == 0
  {
    Two(txid) + [129, 0] + Two(1) + Two(n) + Two(0) + Two(0)
  }

  lemma ReplyForm(e: Entry, labels: seq<seq<Byte>>, records: seq<Record>)
    requires labels != [] && AllGood(labels) && e.name == Dotted(labels) && e.txid < TXIDS && AllOk(records)
    requires |records| < 0x10000
    ensures var q := QueryOf(e).bytes; |q| >= HEADER
    ensures ReplyTo(QueryOf(e).bytes, records)
            == ReplyHead(e.txid, |records|) + Wire(labels) + (Two(TypeOf(AsksV6(e.family))) + Two(CLASS_IN)) + Bytes(records)
  {
    EncodeDotted(labels);
    QueryParts(e.txid, e.name, e.family);
    hide Two, Wire, Encode, Dotted, Bytes, AllOk, AllGood, TypeOf, QueryHeader;
    var typ, cls := Two(TypeOf(AsksV6(e.family))), Two(CLASS_IN);
    Regroup3(ReplyHead(e.txid, |records|), Wire(labels), typ, cls, Bytes(records));
  }

  lemma Regroup3(a: seq<Byte>, b: seq<Byte>, c: seq<Byte>, d: seq<Byte>, e: seq<Byte>)
    ensures a + (b + c + d) + e == a + b + (c + d) + e
  {
  }

  /** A reply to a query is a response to its question, under its id. */
  lemma ReplyResponds(e: Entry, labels: seq<seq<Byte>>, records: seq<Record>, m: Message)
    requires labels != [] && AllGood(labels) && e.name == Dotted(labels) && e.txid < TXIDS
    requires AllOk(records) && |records| < 0x10000 && m == ReplyTo(QueryOf(e).bytes, records)
    ensures |m| >= HEADER + QUESTION && U16(m, 0) == e.txid && m[3] % 16 == 0
    ensures IsResponse(m, labels, AsksV6(e.family), records)
  {
    hide Two, Wire, Encode, Dotted, Bytes, SpelledAt, HasAt, AllOk, AllGood, U16, QueryOf, ReplyTo, ReplyHead;
    ReplyForm(e, labels, records);
    var head, wire, ask, recs := ReplyHead(e.txid, |records|), Wire(labels), Two(TypeOf(AsksV6(e.family))) + Two(CLASS_IN),
      Bytes(records);
    HasParts(head, wire, ask, recs, m);
    HasSpelled(m, HEADER, wire);
    ReplyHeader(e.txid, |records|, wire + ask + recs, m);
  }

  lemma HasParts(head: seq<Byte>, wire: seq<Byte>, ask: seq<Byte>, recs: seq<Byte>, m: Message)
    requires m == head + wire + ask + recs
    ensures HasAt(m, |head|, wire) && HasAt(m, |head| + |wire|, ask) && HasAt(m, |head| + |wire| + |ask|, recs)
    ensures m == head + (wire + ask + recs)
  {
    hide HasAt;
    Regroup4(head, wire, ask, recs);
    HasMiddle(head, wire, ask + recs);
    HasMiddle(head + wire, ask, recs);
    HasMiddle(head + wire + ask, recs, []);
  }

  lemma Regroup4(a: seq<Byte>, b: seq<Byte>, c: seq<Byte>, d: seq<Byte>)
    ensures a + b + c + d == a + b + (c + d) && a + b + c + d == a + b + c + d + [] && a + b + c + d == a + (b + c + d)
  {
  }

  lemma ReplyHeader(txid: nat, n: nat, rest: seq<Byte>, m: Message)
    requires txid < TXIDS && n < 0x10000 && m == ReplyHead(txid, n) + rest
    ensures U16(m, 0) == txid && U16(m, 4) == 1 && U16(m, 6) == n
  {
    hide Two, HasAt, U16;
    var a, b, c, d := Two(txid), [129, 0], Two(1), Two(n);
    var z := Two(0) + Two(0) + rest;
    assert m == [] + a + (b + c + d + z) && m == a + b + c + (d + z) && m == a + b + c + d + z;
    HasMiddle([], a, b + c + d + z);
    HasMiddle(a + b, c, d + z);
    HasMiddle(a + b + c, d, z);
    HasTwo(m, 0, txid);
    HasTwo(m, 4, 1);
    HasTwo(m, 6, n);
  }

  /** From end to end: if the server that an entry asks replies to the query that was sent for it, with an address of the
      wanted family, then everybody who waits for the entry is told that address. */
  lemma RepliedIsTold(lim: Limits, v: View, i: nat, labels: seq<seq<Byte>>, records: seq<Record>, m: Message, sender: set<nat>,
                      w: View, r: nat)
    requires Sound(lim, v) && Sound(lim, w) && PacketOn(lim, v, m, sender, w)
    requires i < |v.table| && v.table[i].state.Asking? && v.table[i].server in sender
    requires labels != [] && AllGood(labels) && v.table[i].name == Dotted(labels) && AllOk(records) && |records| < 0x10000
    requires m == ReplyTo(QueryOf(v.table[i]).bytes, records)
    requires FirstAddress(records, AsksV6(v.table[i].family)).Answered?
    requires r < |v.requests| && v.requests[r].Pending? && v.requests[r].idx == i
    ensures w.found[v.requests[r].id] == 1 && v.requests[r].id in w.given
    ensures w.given[v.requests[r].id] == FirstAddress(records, AsksV6(v.table[i].family)).address
  {
    assert InRange(lim, v.table[i]);
    hide Sound, PacketOn, IsResponse, ReplyTo, QueryOf, Dotted, FirstAddress, Two;
    ReplyResponds(v.table[i], labels, records, m);
    AnswerReaches(lim, v, m, sender, w, i, labels, records, r);
  }
}
