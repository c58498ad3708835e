/** The DNS resolver: its table, its requests and its source ports, changed in place by queries,
    timer ticks and packets. Callbacks do not call back into the resolver. */
module DnsResolver {
  import opened Octets
  import opened Options
  import opened DnsTable
  import opened DnsNames
  import opened DnsResponse
  import opened DnsSteps

  /** Calling one callback keeps the account. */
  lemma Called(q: seq<Request>, found: multiset<nat>, failed: multiset<nat>, accepted: nat, r: nat, ok: bool)
    requires Accounted(q, found, failed, accepted) && r < |q| && q[r].Pending?
    ensures Accounted(q[r := Free],
                      if ok then found + multiset{q[r].id} else found,
                      if ok then failed else failed + multiset{q[r].id}, accepted)
  {
    forall id: nat ensures Waiting(q[r := Free], id) + Is(q[r], id) == Waiting(q, id) {
      WaitingUpdate(q, r, Free, id);
    }
  }

  lemma AgedSame(lim: Limits, t: seq<Entry>, q: seq<Request>)
    requires lim.Ok() && AllInRange(lim, t) && Answerable(t, q)
    ensures Aged(lim, t, q, t, q, 0)
  {
  }

  lemma SameShare(t: seq<Entry>, pcbs: seq<bool>, i: nat, e: Entry)
    requires i < |t| && e.pcb == t[i].pcb
    ensures ClosePort(t[i := e], pcbs, i) == ClosePort(t, pcbs, i)
  {
    var b := t[i := e];
    assert Shared(b, i) <==> Shared(t, i) by {
      if j :| 0 <= j < |t| && j != i && UsesPort(t[j], t[i].pcb) {
        assert UsesPort(b[j], b[i].pcb);
      }
      if j :| 0 <= j < |b| && j != i && UsesPort(b[j], b[i].pcb) {
        assert UsesPort(t[j], t[i].pcb);
      }
    }
  }

  /** An entry ended; nobody waits longer. */
  lemma EndedTime(lim: Limits, t: seq<Entry>, q: seq<Request>, t': seq<Entry>, i: nat)
    requires lim.Ok() && AllInRange(lim, t) && AllInRange(lim, t') && Answerable(t, q) && Answerable(t', Cleared(q, i))
    requires i < |t| == |t'| && !t'[i].state.Asking? && forall j :: 0 <= j < |t| && j != i ==> t'[j] == t[j]
    ensures Aged(lim, t, q, t', Cleared(q, i), 0)
  {
    hide TicksLeft;
    assert forall j :: 0 <= j < |t| ==> Closer(lim, t[j], t'[j], 0);
    CloserAges(lim, t, q, t', Cleared(q, i), 0);
  }

  /** Going to the next server early shortens the wait. */
  lemma SwitchTime(lim: Limits, t: seq<Entry>, q: seq<Request>, t': seq<Entry>, i: nat)
    requires lim.Ok() && AllInRange(lim, t) && AllInRange(lim, t') && Answerable(t, q) && Answerable(t', q)
    requires i < |t| && t[i].state.Asking? && t[i].server + 1 < lim.servers
    requires t' == t[i := t[i].(server := t[i].server + 1, tmr := 1, retries := 0)]
    ensures Aged(lim, t, q, t', q, 0)
  {
    assert Closer(lim, t[i], t'[i], 0);
    hide TicksLeft;
    assert forall j :: 0 <= j < |t| ==> Closer(lim, t[j], t'[j], 0);
    CloserAges(lim, t, q, t', q, 0);
  }

  /** The second family was counted in from the start. */
  lemma FallbackTime(lim: Limits, t: seq<Entry>, q: seq<Request>, t': seq<Entry>, q': seq<Request>, i: nat)
    requires lim.Ok() && AllInRange(lim, t) && AllInRange(lim, t') && Answerable(t, q) && Answerable(t', q')
    requires i < |t| == |t'| && t[i].state.Asking? && t[i].family.TwoFamilies() && Fewer(q, q')
    requires forall j :: 0 <= j < |t| && j != i ==> t'[j] == t[j]
    requires t'[i].state.Asking? ==>
               !t'[i].family.TwoFamilies() && t'[i].server == 0 && t'[i].tmr == 1 && t'[i].retries == 0
    ensures Aged(lim, t, q, t', q', 0)
  {
    assert Closer(lim, t[i], t'[i], 0);
    hide TicksLeft;
    assert forall j :: 0 <= j < |t| ==> Closer(lim, t[j], t'[j], 0);
    CloserAges(lim, t, q, t', q', 0);
  }

  lemma FallbackStarts(lim: Limits, t: seq<Entry>, q: seq<Request>, pcbs: seq<bool>, i: nat, e: Entry)
    requires i < |t| && t[i].state.Asking? && DistinctTxids(t) && AllInRange(lim, t)
    requires Answerable(t, q) && PortsUsed(t, pcbs)
    requires e.state.New? && e.pcb == t[i].pcb
    ensures DistinctTxids(t[i := e])
    ensures Answerable(t[i := e.(state := Asking)], q) && PortsUsed(t[i := e.(state := Asking)], pcbs)
    ensures t[i := e][i := t[i := e][i].(state := Asking)] == t[i := e.(state := Asking)]
  {
    SamePorts(t, t[i := e.(state := Asking)], pcbs);
  }

  /** A request attached to an asked entry. */
  lemma AcceptedTime(lim: Limits, t: seq<Entry>, q: seq<Request>, accepted: nat,
                     t': seq<Entry>, q': seq<Request>, r: nat, i: nat)
    requires lim.Ok() && AllInRange(lim, t) && AllInRange(lim, t') && Answerable(t, q) && r < |q| && i < |t| == |t'|
    requires q' == q[r := Pending(accepted, i)] && Answerable(t', q') && t'[i].state.Asking?
    requires forall j :: 0 <= j < |t| && j != i ==> t'[j] == t[j]
    requires t[i].state.Asking? ==> t'[i] == t[i]
    ensures AgedBut(lim, t, q, t', q', accepted)
    ensures Within(lim, t', q', accepted, MostTicks(lim))
  {
    hide TicksLeft, MostTicks;
    forall k | 0 <= k < |t'| && t'[k].state.Asking? ensures TicksLeft(lim, t'[k]) <= MostTicks(lim) {
      TicksLeftAtMost(lim, t'[k]);
    }
  }

  /** Nothing new waits. */
  lemma RefusedTime(lim: Limits, t: seq<Entry>, q: seq<Request>, found: multiset<nat>, failed: multiset<nat>, accepted: nat,
                    t': seq<Entry>)
    requires lim.Ok() && AllInRange(lim, t) && AllInRange(lim, t') && Answerable(t, q) && Answerable(t', q)
    requires Accounted(q, found, failed, accepted) && |t| == |t'|
    requires forall j :: 0 <= j < |t| && t[j].state.Asking? ==> t'[j] == t[j]
    ensures AgedBut(lim, t, q, t', q, accepted)
    ensures Within(lim, t', q, accepted, MostTicks(lim))
    ensures forall k :: 0 <= k < |q| ==> q[k].Pending? ==> q[k].id != accepted
  {
    hide TicksLeft, MostTicks;
    IdsBelow(q, found, failed, accepted);
  }

  /** A request for a new entry, whether that is asked now or was given up at once. */
  lemma StartedTime(lim: Limits, t: seq<Entry>, q: seq<Request>, accepted: nat,
                    t': seq<Entry>, q1: seq<Request>, q': seq<Request>, r: nat, i: nat)
    requires lim.Ok() && AllInRange(lim, t) && AllInRange(lim, t') && Answerable(t, q) && Answerable(t', q')
    requires r < |q| && i < |t| == |t'| && !t[i].state.Asking? && q1 == q[r := Pending(accepted, i)] && Fewer(q1, q')
    requires forall j :: 0 <= j < |t| && j != i ==> t'[j] == t[j]
    ensures AgedBut(lim, t, q, t', q', accepted)
    ensures Within(lim, t', q', accepted, MostTicks(lim))
  {
    hide TicksLeft, MostTicks;
    forall k | 0 <= k < |t'| && t'[k].state.Asking? ensures TicksLeft(lim, t'[k]) <= MostTicks(lim) {
      TicksLeftAtMost(lim, t'[k]);
    }
  }

  /** Only accepted requests wait. */
  lemma IdsBelow(q: seq<Request>, found: multiset<nat>, failed: multiset<nat>, accepted: nat)
    requires Accounted(q, found, failed, accepted)
    ensures forall r :: 0 <= r < |q| && q[r].Pending? ==> q[r].id < accepted
  {
    forall r | 0 <= r < |q| && q[r].Pending? ensures q[r].id < accepted {
      assert Is(q[r], q[r].id) == 1;
      WaitingSome(q, q[r].id);
    }
  }

  lemma BeginKeeps(t: seq<Entry>, q: seq<Request>, i: nat, e: Entry, r: nat, id: nat)
    requires i < |t| && !t[i].state.Asking? && e.state.New? && DistinctTxids(t) && Answerable(t, q) && r < |q|
    ensures DistinctTxids(t[i := e])
    ensures Answerable(t[i := e.(state := Asking)], q[r := Pending(id, i)])
  {
  }

  /** Changing an entry that is not asked concerns nobody. */
  lemma IdleKeeps(lim: Limits, t: seq<Entry>, q: seq<Request>, pcbs: seq<bool>, i: nat, e: Entry)
    requires i < |t| && !t[i].state.Asking? && DistinctTxids(t) && AllInRange(lim, t)
    requires Answerable(t, q) && PortsUsed(t, pcbs)
    requires e.state.Unused? || e.state.Done?
    ensures DistinctTxids(t[i := e]) && AllInRange(lim, t[i := e]) && Answerable(t[i := e], q) && PortsUsed(t[i := e], pcbs)
  {
    SamePorts(t, t[i := e], pcbs);
  }

  /** Changing the clock of an asked entry keeps what the others rely on. */
  lemma RestKeeps(lim: Limits, t: seq<Entry>, q: seq<Request>, pcbs: seq<bool>, i: nat, e: Entry)
    requires i < |t| && t[i].state.Asking? && DistinctTxids(t) && AllInRange(lim, t)
    requires Answerable(t, q) && PortsUsed(t, pcbs)
    requires e.state.Asking? && e.pcb == t[i].pcb && e.txid == t[i].txid
    ensures DistinctTxids(t[i := e]) && Answerable(t[i := e], q) && PortsUsed(t[i := e], pcbs)
    ensures InRange(lim, e) ==> AllInRange(lim, t[i := e])
  {
    SamePorts(t, t[i := e], pcbs);
  }

  lemma AcceptableIs(v: View, name: seq<Byte>, family: AddrType, canBind: bool, d: nat, r: nat, i: nat)
    requires d <= |v.table| && r <= |v.requests| && i <= |v.table| && (d == |v.table| || r == |v.requests|)
    requires r < |v.requests| ==> v.requests[r].Free?
    requires forall k :: 0 <= k < r ==> v.requests[k].Pending?
    requires forall k :: 0 <= k < d ==> !Duplicate(v.table[k], name, family)
    requires i < |v.table| ==> Usable(v.table[i], v.seqno)
    requires i == |v.table| ==> forall k :: 0 <= k < |v.table| ==> !Usable(v.table[k], v.seqno)
    ensures Acceptable(v, name, family, canBind) <==>
      r < |v.requests| && i < |v.table| && (canBind || exists k :: 0 <= k < |v.pcbs| && v.pcbs[k])
  {
    if r == |v.requests| {
      assert !exists k :: 0 <= k < |v.requests| && v.requests[k].Free?;
    } else {
      assert v.requests[r].Free?;
      assert !exists k :: 0 <= k < |v.table| && Duplicate(v.table[k], name, family);
    }
  }

  lemma SharedQuery(lim: Limits, v: View, name: seq<Byte>, family: AddrType, canBind: bool, d: nat, r: nat, w: View)
    requires SharedOn(v, name, family, d, r, w)
    ensures Acceptable(v, name, family, canBind) && QueryOn(lim, v, name, family, canBind, w)
  {
    assert v.requests[r].Free? && Duplicate(v.table[d], name, family);
  }

  lemma BegunQuery(lim: Limits, v: View, name: seq<Byte>, family: AddrType, canBind: bool, d: nat, i: nat, r: nat, k: nat,
                   w: View)
    requires Acceptable(v, name, family, canBind) && BegunOn(lim, v, name, family, canBind, i, r, k, w)
    requires d == |v.table| && forall j :: 0 <= j < d ==> !Duplicate(v.table[j], name, family)
    ensures QueryOn(lim, v, name, family, canBind, w)
  {
    hide BegunOn, Acceptable;
  }

  lemma RefusedQuery(lim: Limits, v: View, name: seq<Byte>, family: AddrType, canBind: bool, w: View)
    requires !Acceptable(v, name, family, canBind) && w == v
    ensures QueryOn(lim, v, name, family, canBind, w)
  {
    hide Acceptable;
  }

  lemma EmptiedQuery(lim: Limits, v: View, name: seq<Byte>, family: AddrType, canBind: bool, i: nat, w: View)
    requires !Acceptable(v, name, family, canBind)
    requires Picked(v.table, v.seqno, i) && w == Emptied(lim, v, name, family, i)
    ensures QueryOn(lim, v, name, family, canBind, w)
  {
    hide Acceptable, Picked;
  }

  lemma IgnoredOn(lim: Limits, v: View, i: nat)
    requires i < |v.table|
    ensures HandledOn(lim, v, i, Ignored, v)
  {
  }

  lemma AnsweredGone(lim: Limits, v: View, i: nat, txid: nat, outcome: Outcome, w: View)
    requires i < |v.table| && outcome.Answered? && HandledOn(lim, v, i, outcome, w)
    requires forall j :: 0 <= j < |v.table| && j != i && v.table[j].state.Asking? ==> v.table[j].txid != txid
    ensures Unasked(w.table, txid)
  {
  }

  lemma AskedQuietly(lim: Limits, v: View, i: nat, e: Entry, w: View)
    requires Asked(lim, v, i, e, w)
    ensures w.found == v.found && (v.servers[0] ==> w.failed == v.failed) && w.accepted == v.accepted
  {
  }

  /** Nobody waits for an entry that is not asked. */
  lemma NoneWaits(t: seq<Entry>, q: seq<Request>, i: nat)
    requires i < |t| && !t[i].state.Asking? && Answerable(t, q)
    ensures Cleared(q, i) == q
  {
  }

  lemma CalledOn(q0: seq<Request>, t: seq<Entry>, q: seq<Request>, t': seq<Entry>, q': seq<Request>, i: nat)
    requires i < |t| == |t'| && t' == t[i := t'[i]] && CalledFor(t, q0, q, i)
    requires q' == if t'[i].state.Asking? then q else Cleared(q, i)
    ensures CalledFor(t', q0, q', i + 1)
  {
  }

  /** The second family is asked from the entry as it was. */
  lemma FallbackAsked(lim: Limits, v: View, i: nat, w: View)
    requires i < |v.table| && v.table[i].family.TwoFamilies()
    requires var e := v.table[i].(family := v.table[i].family.Second(), state := New);
      Asked(lim, v.(table := v.table[i := e]), i, e, w)
    ensures HandledOn(lim, v, i, NoAddress, w)
  {
    var e := v.table[i].(family := v.table[i].family.Second(), state := New);
    assert v.table[i := e][i := w.table[i]] == v.table[i := w.table[i]];
  }

  lemma GivenNone(given: map<nat, seq<Byte>>, q: seq<Request>, i: nat, address: seq<Byte>)
    ensures GivenTo(given, q, i, address, 0) == given
  {
  }

  lemma GivenStep(given: map<nat, seq<Byte>>, q: seq<Request>, i: nat, address: seq<Byte>, n: nat)
    requires n < |q|
    ensures var so := GivenTo(given, q, i, address, n);
      GivenTo(given, q, i, address, n + 1) == if q[n].Pending? && q[n].idx == i then so[q[n].id := address] else so
  {
  }

  /** What `dns_gethostbyname` returns. */
  datatype Reply = At(address: seq<Byte>) | InProgress | NoRoom | NoServer | BadName

  lemma TickSendsNone(lim: Limits, servers: seq<bool>, t: seq<Entry>)
    requires lim.Ok() && |servers| == lim.servers && AllInRange(lim, t)
    ensures TickSends(lim, servers, t, 0) == []
  {
  }

  lemma TickSendsNext(lim: Limits, servers: seq<bool>, t: seq<Entry>, n: nat, sent: seq<Datagram>)
    requires lim.Ok() && |servers| == lim.servers && n < |t| && AllInRange(lim, t)
    ensures sent + TickSends(lim, servers, t, n + 1)
            == sent + TickSends(lim, servers, t, n) + if Resent(lim, servers, t[n]) then [QueryOf(Ticked(lim, servers, t[n]))] else []
  {
    hide Resent, QueryOf, Ticked;
  }

  lemma UntouchedTime(lim: Limits, t: seq<Entry>, q: seq<Request>, id: nat)
    requires lim.Ok() && AllInRange(lim, t) && Answerable(t, q)
    ensures AgedBut(lim, t, q, t, q, id)
  {
  }

  class Resolver {
    const lim: Limits
    var table: seq<Entry>
    var requests: seq<Request>
    /** Which of `dns_pcbs` are open. */
    var pcbs: seq<bool>
    /** Which of `dns_servers` are set. */
    var servers: seq<bool>
    var lastPcb: nat
    var seqno: nat
    /** The number of requests answered with ERR_INPROGRESS so far; they are numbered from 0. */
    var accepted: nat
    /** What they asked for. */
    ghost var questions: seq<Question>
    /** Which callbacks were called with an address, and which without. */
    ghost var found: multiset<nat>
    ghost var failed: multiset<nat>
    ghost var given: map<nat, seq<Byte>>
    /** The packets handed to `udp_sendto`. */
    var sent: seq<Datagram>

    ghost function State(): View
      reads this
    {
      View(table, requests, pcbs, servers, lastPcb, seqno, accepted, questions, found, failed, given, sent)
    }

    ghost predicate Sized()
      reads this
    {
      SizedView(lim, State())
    }

    ghost predicate Valid()
      reads this
    {
      Sound(lim, State())
    }

    /** Valid but for entry `i`, which is about to be asked. */
    ghost predicate Starting(i: nat)
      reads this
    {
      && Sized()
      && i < |table| && table[i].state.New? && table[i].pcb < lim.ports && |table[i].name| <= MAX_NAME
      && DistinctTxids(table)
      && (forall j :: 0 <= j < |table| && j != i ==> InRange(lim, table[j]))
      && Answerable(table[i := table[i].(state := Asking)], requests)
      && PortsUsed(table[i := table[i].(state := Asking)], pcbs)
    }

    constructor (lim: Limits, n: nat)
      requires lim.Ok() && n <= 255
      ensures Valid() && this.lim == lim && |table| == n && accepted == 0 && Idle(State())
    {
      this.lim := lim;
      table := seq(n, _ => Entry(Unused, [], 0, 0, 0, 0, V4, lim.ports, 0, 0, []));
      requests := seq(n, _ => Free);
      pcbs := seq(lim.ports, _ => false);
      servers := seq(lim.servers, _ => false);
      lastPcb, seqno, accepted := 0, 0, 0;
      questions, found, failed, given, sent := [], multiset{}, multiset{}, map[], [];
      new;
      forall id: nat ensures Waiting(requests, id) == 0 {
        WaitingSome(requests, id);
      }
    }

    /** Call and drop one request. */
    method CallOne(r: nat, ok: bool, ghost address: seq<Byte>)
      requires Sized() && r < |requests| && requests[r].Pending?
      modifies this`requests, this`found, this`failed, this`given
      ensures Sized() && requests == old(requests)[r := Free]
      ensures if ok then failed == old(failed) else found == old(found)
      ensures given == if ok then old(given)[old(requests)[r].id := address] else old(given)
    {
      hide Accounted;
      Called(requests, found, failed, accepted, r, ok);
      if ok {
        found := found + multiset{requests[r].id};
        given := given[requests[r].id := address];
      } else {
        failed := failed + multiset{requests[r].id};
      }
      requests := requests[r := Free];
    }

    /** Call and drop the requests of entry `idx`. */
    method CallRequests(idx: nat, ok: bool)
      requires Sized() && idx < |table|
      modifies this`requests, this`found, this`failed, this`given
      ensures Sized() && requests == Cleared(old(requests), idx)
      ensures if ok then failed == old(failed) else found == old(found) && given == old(given)
      ensures ok ==> given == GivenTo(old(given), old(requests), idx, table[idx].ipaddr, |old(requests)|)
    {
      hide Accounted, GivenTo;
      var r := 0;
      GivenNone(given, requests, idx, table[idx].ipaddr);
      while r < |requests|
        invariant 0 <= r <= |requests| == |old(requests)| && Sized()
        invariant forall k :: 0 <= k < r ==> requests[k] == Cleared(old(requests), idx)[k]
        invariant forall k :: r <= k < |requests| ==> requests[k] == old(requests)[k]
        invariant if ok then failed == old(failed) else found == old(found) && given == old(given)
        invariant ok ==> given == GivenTo(old(given), old(requests), idx, table[idx].ipaddr, r)
      {
        GivenStep(old(given), old(requests), idx, table[idx].ipaddr, r);
        if requests[r].Pending? && requests[r].idx == idx {
          CallOne(r, ok, table[idx].ipaddr);
        }
        r := r + 1;
      }
    }

    /** Does another asked entry use the port of entry `idx`? */
    method IsShared(idx: nat) returns (shared: bool)
      requires idx < |table|
      ensures shared <==> Shared(table, idx)
    {
      for i := 0 to |table|
        invariant forall j :: 0 <= j < i && j != idx ==> !UsesPort(table[j], table[idx].pcb)
      {
        if i != idx && table[i].state == Asking && table[i].pcb == table[idx].pcb {
          assert UsesPort(table[i], table[idx].pcb);
          return true;
        }
      }
      return false;
    }

    /** `dns_call_found`: call every callback that waits for entry `idx`, and close its port unless
        another asked entry uses it. */
    method CallFound(idx: nat, ok: bool)
      requires Sized() && idx < |table|
      modifies this`table, this`requests, this`pcbs, this`found, this`failed, this`given
      ensures Sized()
      ensures table == old(table)[idx := Resolved(old(table)[idx], lim, ok)]
      ensures requests == Cleared(old(requests), idx)
      ensures pcbs == ClosePort(old(table), old(pcbs), idx)
      ensures if ok then failed == old(failed) else found == old(found) && given == old(given)
      ensures ok ==> given == GivenTo(old(given), old(requests), idx, old(table)[idx].ipaddr, |old(requests)|)
    {
      hide Accounted, Cleared, GivenTo;
      var shared := IsShared(idx);
      if ok {
        var v6 := table[idx].family.V6? || table[idx].family.V6ThenV4?;
        table := table[idx := table[idx].(family := if v6 then V6 else V4)];
      }
      CallRequests(idx, ok);
      if !shared && table[idx].pcb < lim.ports {
        pcbs := pcbs[table[idx].pcb := false];
      }
      table := table[idx := table[idx].(pcb := lim.ports)];
    }

    /** `dns_send`, where there is memory for the packet; an entry whose server is gone is given up. */
    method Send(i: nat)
      requires Valid() && i < |table| && table[i].state.Asking?
      modifies this`table, this`requests, this`pcbs, this`found, this`failed, this`given, this`sent
      ensures Valid()
      ensures if old(servers[table[i].server]) then State() == old(State()).(sent := old(sent) + [QueryOf(old(table)[i])])
              else GivenUp(lim, old(State()), i, old(table)[i], State())
    {
      hide Accounted, Cleared, DistinctTxids, PortsUsed, Answerable, Encode;
      var e := table[i];
      if !servers[e.server] {
        GiveUp(i);
        return;
      }
      var header := Two(e.txid % TXIDS) + [1, 0] + Two(1) + Two(0) + Two(0) + Two(0);
      var name := EncodeName(e.name);
      var typ := if AsksV6(e.family) then 28 else 1;
      sent := sent + [Datagram(e.server, e.pcb, header + (name + Two(typ) + Two(CLASS_IN)))];
    }

    /** Call the callbacks of entry `i` without an address and free the entry. */
    method GiveUp(i: nat)
      requires Sized() && i < |table| && DistinctTxids(table) && Answerable(table, requests) && PortsUsed(table, pcbs)
      requires table[i].state.Asking? && forall j :: 0 <= j < |table| && j != i ==> InRange(lim, table[j])
      modifies this`table, this`requests, this`pcbs, this`found, this`failed, this`given
      ensures Valid() && GivenUp(lim, old(State()), i, old(table)[i], State())
    {
      hide Accounted, Cleared, PortsUsed, DistinctTxids, Answerable, ClosePort;
      ghost var e := Flushed(lim, table[i]);
      FinishPorts(table, pcbs, i, e);
      FinishKeeps(lim, table, requests, i, e);
      CallFound(i, false);
      table := table[i := table[i].(state := Unused)];
      assert table == old(table)[i := e];
    }

    /** `dns_check_entry` on a new entry: choose an id that no asked entry has, and ask the first server. */
    method StartQuery(i: nat)
      requires Starting(i)
      modifies this`table, this`requests, this`pcbs, this`found, this`failed, this`given, this`sent
      ensures Valid() && Fewer(old(requests), requests) && Asked(lim, old(State()), i, old(table)[i], State())
    {
      hide Accounted, PortsUsed, Answerable;
      FreeTxidExists(table, TXIDS);
      var txid: nat :| txid < TXIDS && Unasked(table, txid);
      var e := table[i].(txid := txid, state := Asking, server := 0, tmr := 1, retries := 0);
      AskKeeps(lim, table, requests, pcbs, i, e);
      table := table[i := e];
      Send(i);
    }

    /** `dns_check_entry` on an asked entry. */
    method Retry(i: nat)
      requires Valid() && i < |table| && table[i].state.Asking?
      modifies this`table, this`requests, this`pcbs, this`found, this`failed, this`given, this`sent
      ensures Valid()
      ensures var v := old(State()); var next := OnTick(lim, servers, v.table[i]).1;
        if GoesOn(lim, servers, v.table[i])
        then State() == v.(table := v.table[i := next],
                           sent := v.sent + if v.table[i].tmr <= 1 then [QueryOf(next)] else [])
        else GivenUp(lim, v, i, next, State())
    {
      hide Accounted, PortsUsed, Answerable, Cleared, DistinctTxids, From, Times, QueryOf;
      ghost var t0, e := table, table[i];
      ghost var next := OnTick(lim, servers, e);
      table := table[i := table[i].(tmr := table[i].tmr - 1)];
      if table[i].tmr == 0 {
        table := table[i := table[i].(retries := table[i].retries + 1)];
        if table[i].retries == lim.retries {
          if table[i].server + 1 < lim.servers && servers[table[i].server + 1] {
            table := table[i := table[i].(server := table[i].server + 1, tmr := 1, retries := 0)];
          } else {
            assert table == t0[i := next.1];
            RestKeeps(lim, t0, requests, pcbs, i, next.1);
            GiveUp(i);
            return;
          }
        } else {
          table := table[i := table[i].(tmr := table[i].retries)];
        }
        assert table == t0[i := next.1];
        RestKeeps(lim, t0, requests, pcbs, i, next.1);
        Send(i);
      } else {
        assert table == t0[i := next.1];
        RestKeeps(lim, t0, requests, pcbs, i, next.1);
      }
    }

    /** `dns_check_entry`. */
    method CheckEntry(i: nat)
      requires i < |table| && (Valid() || Starting(i))
      modifies this`table, this`requests, this`pcbs, this`found, this`failed, this`given, this`sent
      ensures Valid() && found == old(found) && given == old(given) && Fewer(old(requests), requests)
      ensures |table| == |old(table)| && table == old(table)[i := table[i]]
      ensures old(Valid()) ==> Closer(lim, old(table)[i], table[i], 1)
      ensures old(Starting(i)) ==> Asked(lim, old(State()), i, old(table)[i], State())
      ensures old(Valid()) ==> table[i] == Ticked(lim, servers, old(table)[i])
      ensures old(Valid()) ==>
        requests == if table[i].state.Asking? then old(requests) else Cleared(old(requests), i)
      ensures old(Valid()) ==>
        sent == old(sent) + if Resent(lim, servers, old(table)[i]) then [QueryOf(table[i])] else []
    {
      hide Accounted, PortsUsed, Cleared, DistinctTxids, TicksLeft, QueryOf;
      match table[i].state
      case New =>
        StartQuery(i);
      case Asking =>
        Retry(i);
      case Done =>
        ghost var t0 := table;
        NoneWaits(table, requests, i);
        if table[i].ttl <= 1 {
          table := table[i := table[i].(ttl := 0, state := Unused)];
        } else {
          table := table[i := table[i].(ttl := table[i].ttl - 1)];
        }
        IdleKeeps(lim, t0, requests, pcbs, i, table[i]);
      case Unused =>
        NoneWaits(table, requests, i);
    }

    /** `dns_tmr`: one timer tick brings every waiting request one tick closer to its callback. */
    method Tick()
      requires Valid()
      modifies this`table, this`requests, this`pcbs, this`found, this`failed, this`given, this`sent
      ensures Valid() && found == old(found)
      ensures Aged(lim, old(table), old(requests), table, requests, 1)
      ensures TickOn(lim, old(State()), State())
    {
      hide Accounted, PortsUsed, DistinctTxids, TicksLeft, Ticked, QueryOf, TickSends, Resent;
      var i := 0;
      TickSendsNone(lim, servers, table);
      while i < |table|
        invariant 0 <= i <= |table| == |old(table)|
        invariant Valid() && found == old(found) && given == old(given) && Fewer(old(requests), requests)
        invariant forall j :: 0 <= j < |table| ==> Closer(lim, old(table)[j], table[j], if j < i then 1 else 0)
        invariant forall j :: i <= j < |table| ==> table[j] == old(table)[j]
        invariant forall j :: 0 <= j < i ==> table[j] == Ticked(lim, servers, old(table)[j])
        invariant CalledFor(table, old(requests), requests, i)
        invariant sent == old(sent) + TickSends(lim, servers, old(table), i)
      {
        ghost var t, q := table, requests;
        TickSendsNext(lim, servers, old(table), i, old(sent));
        CheckEntry(i);
        CalledOn(old(requests), t, q, table, requests, i);
        i := i + 1;
      }
      CloserAges(lim, old(table), old(requests), table, requests, 1);
    }

    /** `dns_setserver`. */
    method SetServer(k: nat, set': bool)
      requires Valid()
      modifies this`servers
      ensures Valid()
      ensures servers == if k < |old(servers)| then old(servers)[k := set'] else old(servers)
    {
      if k < lim.servers {
        servers := servers[k := set'];
      }
    }

    /** `dns_alloc_pcb`: open a port, or take an open one when none can be opened. */
    method AllocPcb(canBind: bool) returns (k: nat)
      requires lim.Ok() && |pcbs| == lim.ports && lastPcb < lim.ports
      modifies this`pcbs, this`lastPcb
      ensures |pcbs| == lim.ports && lastPcb < lim.ports && k <= lim.ports
      ensures k < lim.ports ==> pcbs == old(pcbs)[k := true] && lastPcb == k
      ensures k < lim.ports ==> PortPicked(old(pcbs), old(lastPcb), canBind, k)
      ensures k == lim.ports ==> pcbs == old(pcbs) && lastPcb == old(lastPcb)
      ensures k == lim.ports ==> !canBind && forall j :: 0 <= j < lim.ports ==> !pcbs[j]
    {
      var i := 0;
      while i < lim.ports && pcbs[i]
        invariant 0 <= i <= lim.ports
        invariant forall j :: 0 <= j < i ==> pcbs[j]
      {
        i := i + 1;
      }
      if i < lim.ports && canBind {
        pcbs := pcbs[i := true];
        lastPcb := i;
        return i;
      }
      k := FindOpen();
      assert k == lim.ports ==> !pcbs[0] && i == 0;
      if k < lim.ports {
        lastPcb := k;
        assert pcbs == pcbs[k := true];
      }
    }

    /** The next open port after the last one used, going round; `lim.ports` if there is none. */
    method FindOpen() returns (k: nat)
      requires lim.Ok() && |pcbs| == lim.ports && lastPcb < lim.ports
      ensures k <= lim.ports && (k < lim.ports ==> pcbs[k])
      ensures k < lim.ports ==>
        forall j :: 0 <= j < lim.ports && pcbs[j] ==> Behind(lastPcb, k, lim.ports) <= Behind(lastPcb, j, lim.ports)
      ensures k == lim.ports ==> forall j :: 0 <= j < lim.ports ==> !pcbs[j]
    {
      var i, idx := 0, lastPcb + 1;
      while i < lim.ports
        invariant 0 <= i <= lim.ports
        invariant idx == lastPcb + 1 + i <= lim.ports || (idx == lastPcb + 1 + i - lim.ports && 0 < idx)
        invariant idx > lastPcb && idx == lastPcb + 1 + i ==> forall j :: lastPcb < j < idx ==> !pcbs[j]
        invariant idx == lastPcb + 1 + i - lim.ports ==> forall j :: 0 <= j < idx || lastPcb < j < lim.ports ==> !pcbs[j]
      {
        if idx >= lim.ports {
          idx := 0;
        }
        if pcbs[idx] {
          return idx;
        }
        i, idx := i + 1, idx + 1;
      }
      return lim.ports;
    }

    /** A free request slot, or the size of the table. */
    method FindFree() returns (r: nat)
      ensures r <= |requests| && (r < |requests| ==> requests[r].Free?)
      ensures forall k :: 0 <= k < r ==> requests[k].Pending?
    {
      r := 0;
      while r < |requests| && requests[r].Pending?
        invariant 0 <= r <= |requests|
        invariant forall k :: 0 <= k < r ==> requests[k].Pending?
      {
        r := r + 1;
      }
    }

    /** The first entry that is being asked for this name, or the size of the table. */
    method FindDuplicate(name: seq<Byte>, family: AddrType) returns (i: nat)
      ensures i <= |table| && (i < |table| ==> Duplicate(table[i], name, family))
      ensures forall k :: 0 <= k < i ==> !Duplicate(table[k], name, family)
    {
      i := 0;
      while i < |table| && !Duplicate(table[i], name, family)
        invariant 0 <= i <= |table|
        invariant forall k :: 0 <= k < i ==> !Duplicate(table[k], name, family)
      {
        i := i + 1;
      }
    }

    /** The first unused entry, or else the finished one with the greatest 8-bit age. */
    method FindSlot() returns (i: nat)
      ensures i <= |table| && (i < |table| ==> Picked(table, seqno, i))
      ensures i == |table| ==> forall k :: 0 <= k < |table| ==> !Usable(table[k], seqno)
    {
      var lseq, lseqi := 0, |table|;
      i := 0;
      while i < |table|
        invariant 0 <= i <= |table| && 0 <= lseqi <= |table| && 0 <= lseq
        invariant forall k :: 0 <= k < i ==> !table[k].state.Unused?
        invariant lseqi < |table| ==> table[lseqi].state.Done? && Age(seqno, table[lseqi].seqno) == lseq > 0
        invariant lseqi == |table| ==> lseq == 0
        invariant forall k :: 0 <= k < i && table[k].state.Done? ==> Age(seqno, table[k].seqno) <= lseq
        invariant forall k :: 0 <= k < i && k < lseqi && table[k].state.Done? && lseqi < |table| ==>
          Age(seqno, table[k].seqno) < lseq
        invariant lseqi < |table| ==> lseqi < i
      {
        if table[i].state == Unused {
          return;
        }
        if table[i].state == Done && Age(seqno, table[i].seqno) > lseq {
          lseq, lseqi := Age(seqno, table[i].seqno), i;
        }
        i := i + 1;
      }
      i := lseqi;
    }

    /** Attach one more request to entry `i`, which is being asked. */
    method Attach(i: nat, r: nat, ghost asked: Question)
      requires Valid() && i < |table| && table[i].state.Asking? && r < |requests| && requests[r].Free?
      modifies this`requests, this`accepted, this`questions
      ensures Valid() && accepted == old(accepted) + 1 && questions == old(questions) + [asked]
      ensures requests == old(requests)[r := Pending(old(accepted), i)]
    {
      AcceptKeeps(requests, found, failed, accepted, r, i);
      hide Accounted, PortsUsed, DistinctTxids;
      requests := requests[r := Pending(accepted, i)];
      accepted := accepted + 1;
      questions := questions + [asked];
    }

    /** Take entry `i` and request `r` into use for a new query with the open port `k`. */
    method Occupy(i: nat, r: nat, name: seq<Byte>, family: AddrType, k: nat, ghost was: seq<bool>)
      requires |name| <= MAX_NAME
      requires Sized() && i < |table| && !table[i].state.Asking? && r < |requests| && requests[r].Free?
      requires DistinctTxids(table) && AllInRange(lim, table) && Answerable(table, requests) && PortsUsed(table, was)
      requires k < |was| && pcbs == was[k := true]
      modifies this`table, this`requests, this`accepted, this`questions, this`seqno
      ensures Starting(i) && accepted == old(accepted) + 1 && questions == old(questions) + [Question(name, family)]
      ensures seqno == (old(seqno) + 1) % 256 && requests == old(requests)[r := Pending(old(accepted), i)]
      ensures table == old(table)[i := old(table)[i].(state := New, seqno := old(seqno), family := family, name := name, pcb := k)]
    {
      hide Accounted, PortsUsed, DistinctTxids, Answerable;
      ghost var t0 := table;
      var e := table[i].(state := New, seqno := seqno, family := family, name := name, pcb := k);
      StartPorts(t0, was, i, e.(state := Asking));
      AcceptKeeps(requests, found, failed, accepted, r, i);
      BeginKeeps(t0, requests, i, e, r, accepted);
      table := table[i := e];
      requests := requests[r := Pending(accepted, i)];
      accepted := accepted + 1;
      questions := questions + [Question(name, family)];
      seqno := (seqno + 1) % 256;
      assert table[i := table[i].(state := Asking)] == t0[i := e.(state := Asking)];
    }

    /** The same, unless there is no port for it. */
    method Begin(i: nat, r: nat, name: seq<Byte>, family: AddrType, canBind: bool) returns (ok: bool, k: nat)
      requires Valid() && i < |table| && !table[i].state.Asking? && r < |requests| && requests[r].Free?
      requires |name| <= MAX_NAME
      modifies this
      ensures ok ==> PortPicked(old(pcbs), old(lastPcb), canBind, k)
      ensures ok ==> Starting(i) && State() == Begun(old(State()), name, family, i, r, k)
      ensures !ok ==> Valid() && !canBind && State() == Emptied(lim, old(State()), name, family, i)
      ensures ok <==> canBind || exists j :: 0 <= j < |old(pcbs)| && old(pcbs)[j]
    {
      hide Accounted, PortsUsed, DistinctTxids, Answerable, AllInRange, Behind;
      ghost var t0 := table;
      k := AllocPcb(canBind);
      if k >= lim.ports {
        table := table[i := table[i].(state := Unused, seqno := seqno, family := family, name := name, pcb := k)];
        IdleKeeps(lim, t0, requests, pcbs, i, table[i]);
        return false, k;
      }
      Occupy(i, r, name, family, k, old(pcbs));
      return true, k;
    }

    /** A new query in entry `i`, if there is a port for it. */
    method Open(i: nat, r: nat, name: seq<Byte>, family: AddrType, canBind: bool) returns (ok: bool, k: nat)
      requires Valid() && i < |table| && Usable(table[i], seqno) && r < |requests| && requests[r].Free?
      requires |name| <= MAX_NAME
      modifies this
      ensures Valid() && (ok <==> canBind || exists j :: 0 <= j < |old(pcbs)| && old(pcbs)[j])
      ensures var v := old(State());
        if ok then && PortPicked(v.pcbs, v.lastPcb, canBind, k)
                   && var b := Begun(v, name, family, i, r, k); Asked(lim, b, i, b.table[i], State())
        else State() == Emptied(lim, v, name, family, i)
      ensures accepted == old(accepted) + (if ok then 1 else 0)
      ensures found == old(found) && (old(servers)[0] ==> failed == old(failed))
      ensures AgedBut(lim, old(table), old(requests), table, requests, old(accepted))
      ensures Within(lim, table, requests, old(accepted), MostTicks(lim))
      ensures !ok ==> forall k :: 0 <= k < |requests| ==> requests[k].Pending? ==> requests[k].id != old(accepted)
    {
      hide Accounted, PortsUsed, DistinctTxids, TicksLeft, MostTicks, AgedBut, Within, Answerable, Asked, Behind;
      ghost var t0, q0 := table, requests;
      RefusedTime(lim, table, requests, found, failed, accepted, table);
      ok, k := Begin(i, r, name, family, canBind);
      if ok {
        ghost var v1 := State();
        CheckEntry(i);
        StartedTime(lim, t0, q0, old(accepted), table, v1.requests, requests, r, i);
        AskedQuietly(lim, v1, i, v1.table[i], State());
      } else {
        RefusedTime(lim, t0, requests, found, failed, accepted, table);
      }
    }

    /** `dns_enqueue`. A request that is accepted waits at most the longest time; the requests before
        it wait no longer than before. */
    method Enqueue(name: seq<Byte>, family: AddrType, canBind: bool) returns (ok: bool)
      requires Valid() && |name| <= MAX_NAME
      modifies this
      ensures Valid() && accepted == old(accepted) + (if ok then 1 else 0)
      ensures ok <==> Acceptable(old(State()), name, family, canBind)
      ensures QueryOn(lim, old(State()), name, family, canBind, State())
      ensures found == old(found) && (old(servers)[0] ==> failed == old(failed))
      ensures AgedBut(lim, old(table), old(requests), table, requests, old(accepted))
      ensures Within(lim, table, requests, old(accepted), MostTicks(lim))
      ensures !ok ==> forall k :: 0 <= k < |requests| ==> requests[k].Pending? ==> requests[k].id != old(accepted)
    {
      hide Accounted, PortsUsed, DistinctTxids, TicksLeft, MostTicks, AgedBut, Within, Answerable, QueryOn, Asked, Behind, Age;
      var d := FindDuplicate(name, family);
      var r := FindFree();
      ghost var v := State();
      if d < |table| && r < |requests| {
        Attach(d, r, Question(name, family));
        AcceptedTime(lim, table, old(requests), old(accepted), table, requests, r, d);
        SharedQuery(lim, v, name, family, canBind, d, r, State());
        return true;
      }
      var i := FindSlot();
      AcceptableIs(v, name, family, canBind, d, r, i);
      if i == |table| || r == |requests| {
        RefusedTime(lim, table, requests, found, failed, accepted, table);
        RefusedQuery(lim, v, name, family, canBind, State());
        return false;
      }
      var k;
      ok, k := Open(i, r, name, family, canBind);
      if ok {
        BegunQuery(lim, v, name, family, canBind, d, i, r, k, State());
      } else {
        EmptiedQuery(lim, v, name, family, canBind, i, State());
      }
    }

    /** `dns_lookup`. */
    method Lookup(name: seq<Byte>, v6: bool) returns (r: Option<seq<Byte>>)
      ensures r == CachedFrom(table, 0, name, v6)
    {
      var i := 0;
      while i < |table|
        invariant 0 <= i <= |table| && CachedFrom(table, 0, name, v6) == CachedFrom(table, i, name, v6)
      {
        if Cached(table[i], name, v6) {
          return Some(table[i].ipaddr);
        }
        i := i + 1;
      }
      return None;
    }

    /** `dns_gethostbyname_addrtype`, for names that are not addresses themselves. */
    method GetHostByName(name: seq<Byte>, family: AddrType, canBind: bool) returns (r: Reply)
      requires Valid()
      modifies this
      ensures Valid() && Follows(lim, old(State()), Query(name, family, canBind), State())
      ensures accepted == old(accepted) + (if r == InProgress then 1 else 0)
      ensures AgedBut(lim, old(table), old(requests), table, requests, old(accepted))
      ensures r.At? <==> Askable(name) && Known(old(table), Plain(name), family).Some?
      ensures r.At? ==> Known(old(table), Plain(name), family) == Some(r.address)
      ensures r == InProgress ==> Within(lim, table, requests, old(accepted), MostTicks(lim))
      ensures r == InProgress <==>
        && Askable(name) && Known(old(table), Plain(name), family).None? && old(servers)[0]
        && Acceptable(old(State()), Plain(name), family, canBind)
    {
      hide Accounted, PortsUsed, DistinctTxids, TicksLeft, AgedBut, Within, Answerable, AllInRange, QueryOn, Acceptable, MostTicks;
      UntouchedTime(lim, table, requests, accepted);
      if name == [] {
        return BadName;
      }
      var n := Plain(name);
      if |n| > MAX_NAME {
        return BadName;
      }
      var hit := Lookup(n, AsksV6(family));
      if hit.Some? {
        return At(hit.value);
      }
      if family.TwoFamilies() {
        hit := Lookup(n, AsksV6(family.Second()));
        if hit.Some? {
          return At(hit.value);
        }
      }
      if !servers[0] {
        return NoServer;
      }
      var ok := Enqueue(n, family, canBind);
      return if ok then InProgress else NoRoom;
    }

    /** The first entry that is asked with this id, or the size of the table. */
    method FindTxid(txid: nat) returns (i: nat)
      ensures i <= |table| && (i < |table| ==> table[i].state.Asking? && table[i].txid == txid)
      ensures i == |table| ==> Unasked(table, txid)
    {
      i := 0;
      while i < |table| && !(table[i].state == Asking && table[i].txid == txid)
        invariant 0 <= i <= |table|
        invariant forall k :: 0 <= k < i && table[k].state.Asking? ==> table[k].txid != txid
      {
        i := i + 1;
      }
    }

    /** `dns_correct_response`: remember the answer and call back with it. */
    method Answer(i: nat, ttl: nat, address: seq<Byte>)
      requires Valid() && i < |table| && table[i].state.Asking?
      modifies this`table, this`requests, this`pcbs, this`found, this`failed, this`given
      ensures Valid() && HandledOn(lim, old(State()), i, Answered(ttl, address), State())
    {
      hide Accounted, Cleared, PortsUsed, DistinctTxids, Answerable, ClosePort, GivenTo;
      ghost var t0, pcbs0 := table, pcbs;
      var ttl' := if ttl > MAX_TTL then MAX_TTL else ttl;
      table := table[i := table[i].(ipaddr := address)];
      table := table[i := table[i].(state := Done, ttl := ttl')];
      assert table == t0[i := table[i]];
      SameShare(t0, pcbs, i, table[i]);
      CallFound(i, true);
      if table[i].ttl == 0 {
        table := table[i := table[i].(state := Unused)];
      }
      ghost var e := table[i];
      assert table == t0[i := e];
      FinishPorts(t0, pcbs0, i, e);
      FinishKeeps(lim, t0, old(requests), i, e);
    }

    /** An error reply, with another server left: go on with that server at once. */
    method NextServer(i: nat)
      requires Valid() && i < |table| && table[i].state.Asking?
      requires table[i].server + 1 < lim.servers && servers[table[i].server + 1]
      modifies this`table, this`requests, this`pcbs, this`found, this`failed, this`given, this`sent
      ensures Valid() && HandledOn(lim, old(State()), i, Refused, State())
      ensures Aged(lim, old(table), old(requests), table, requests, 0)
    {
      hide Accounted, PortsUsed, DistinctTxids, Answerable, Aged;
      ghost var t0 := table;
      var e := table[i].(retries := lim.retries - 1, tmr := 1);
      RestKeeps(lim, table, requests, pcbs, i, e);
      table := table[i := e];
      Retry(i);
      SwitchTime(lim, t0, requests, table, i);
    }

    /** No address of the first family: start over with the second, or give up if there is no server now. */
    method OtherFamily(i: nat)
      requires Valid() && i < |table| && table[i].state.Asking? && table[i].family.TwoFamilies()
      modifies this`table, this`requests, this`pcbs, this`found, this`failed, this`given, this`sent
      ensures Valid() && HandledOn(lim, old(State()), i, NoAddress, State())
      ensures Aged(lim, old(table), old(requests), table, requests, 0)
    {
      hide Accounted, PortsUsed, Aged;
      ghost var v := State();
      table := table[i := table[i].(family := table[i].family.Second(), state := New)];
      FallbackStarts(lim, v.table, requests, pcbs, i, table[i]);
      CheckEntry(i);
      FallbackTime(lim, v.table, v.requests, table, requests, i);
      FallbackAsked(lim, v, i, State());
    }

    /** What an answer, an error or an empty answer does to entry `i`. */
    method Handle(i: nat, outcome: Outcome)
      requires Valid() && i < |table| && table[i].state.Asking? && !outcome.Ignored?
      modifies this`table, this`requests, this`pcbs, this`found, this`failed, this`given, this`sent
      ensures Valid() && Aged(lim, old(table), old(requests), table, requests, 0)
      ensures HandledOn(lim, old(State()), i, outcome, State())
    {
      hide Accounted, PortsUsed, DistinctTxids, TicksLeft, Aged;
      ghost var t0, q0 := table, requests;
      match outcome
      case Answered(ttl, address) =>
        Answer(i, ttl, address);
        EndedTime(lim, t0, q0, table, i);
      case Refused =>
        if table[i].server + 1 < lim.servers && servers[table[i].server + 1] {
          NextServer(i);
        } else {
          GiveUp(i);
          EndedTime(lim, t0, q0, table, i);
        }
      case NoAddress =>
        if table[i].family.TwoFamilies() {
          OtherFamily(i);
        } else {
          GiveUp(i);
          EndedTime(lim, t0, q0, table, i);
        }
    }

    /** `dns_recv`. */
    method Receive(m: Message, sender: set<nat>)
      requires Valid()
      modifies this`table, this`requests, this`pcbs, this`found, this`failed, this`given, this`sent
      ensures Valid() && Aged(lim, old(table), old(requests), table, requests, 0)
      ensures PacketOn(lim, old(State()), m, sender, State())
      ensures |m| >= HEADER + QUESTION ==>
        forall e :: e in old(table) && AskedUnder(e, U16(m, 0)) && Says(m, sender, e).Answered? ==> Unasked(table, U16(m, 0))
    {
      hide Accounted, PortsUsed, DistinctTxids, TicksLeft, Aged, HandledOn, Reading, U16;
      ghost var v := State();
      AgedSame(lim, table, requests);
      if |m| < HEADER + QUESTION {
        return;
      }
      var txid := U16(m, 0);
      var i := FindTxid(txid);
      if i == |table| {
        return;
      }
      OnlyOne(table, i);
      var outcome := Read(m, table[i].name, table[i].family, table[i].server in sender);
      if outcome.Ignored? {
        IgnoredOn(lim, v, i);
        return;
      }
      Handle(i, outcome);
      if outcome.Answered? {
        AnsweredGone(lim, v, i, txid, outcome, State());
      }
    }
  }

  lemma WithinAged(lim: Limits, t: seq<Entry>, q: seq<Request>, t': seq<Entry>, q': seq<Request>, id: nat, n: int, d: nat)
    requires lim.Ok() && AllInRange(lim, t) && AllInRange(lim, t') && Answerable(t, q) && Answerable(t', q')
    requires Within(lim, t, q, id, n)
    ensures Aged(lim, t, q, t', q', d) ==> Within(lim, t', q', id, n - d)
    ensures d == 0 ==> forall new' :: new' != id && AgedBut(lim, t, q, t', q', new') ==> Within(lim, t', q', id, n)
  {
    hide TicksLeft;
  }

  /** A request that can wait no longer has been called back, once. */
  lemma OutOfTime(lim: Limits, t: seq<Entry>, q: seq<Request>, found: multiset<nat>, failed: multiset<nat>,
                  accepted: nat, id: nat, n: int)
    requires lim.Ok() && AllInRange(lim, t) && Answerable(t, q) && Accounted(q, found, failed, accepted)
    requires Within(lim, t, q, id, n) && n <= 0 && id < accepted
    ensures found[id] + failed[id] == 1
  {
    hide TicksLeft;
    forall r | 0 <= r < |q| ensures Is(q[r], id) == 0 {
      if Is(q[r], id) == 1 {
        TicksLeftAtMost(lim, t[q[r].idx]);
      }
    }
    WaitingSome(q, id);
  }

  /** One event. The time that request `id` can still wait shrinks by one on a tick and never grows. */
  method Happen(d: Resolver, op: Op, ghost id: nat, ghost n: int)
    requires d.Valid() && id < d.accepted && Within(d.lim, d.table, d.requests, id, n)
    modifies d
    ensures d.Valid() && id < d.accepted && Follows(d.lim, old(d.State()), op, d.State())
    ensures Within(d.lim, d.table, d.requests, id, n - if op.TimerTick? then 1 else 0)
  {
    hide Accounted, PortsUsed, DistinctTxids, TicksLeft, Aged, AgedBut, Within, Answerable, AllInRange;
    hide QueryOn, TickOn, PacketOn;
    ghost var t, q := d.table, d.requests;
    match op
    case Query(name, family, canBind) =>
      var reply := d.GetHostByName(name, family, canBind);
      WithinAged(d.lim, t, q, d.table, d.requests, id, n, 0);
    case TimerTick =>
      d.Tick();
      WithinAged(d.lim, t, q, d.table, d.requests, id, n, 1);
    case Packet(m, sender) =>
      d.Receive(m, sender);
      WithinAged(d.lim, t, q, d.table, d.requests, id, n, 0);
    case Server(k, isSet) =>
      d.SetServer(k, isSet);
  }

  method Drive(d: Resolver, ops: seq<Op>, ghost id: nat, ghost n: int) returns (ghost states: seq<View>)
    requires d.Valid() && id < d.accepted && Within(d.lim, d.table, d.requests, id, n)
    modifies d
    ensures d.Valid() && IsRun(d.lim, ops, states) && states[0] == old(d.State()) && states[|ops|] == d.State()
    ensures n <= Ticks(ops) ==> d.found[id] + d.failed[id] == 1
  {
    hide Accounted, PortsUsed, DistinctTxids, TicksLeft, Answerable, AllInRange, Within, Follows;
    states := [d.State()];
    assert ops[..0] == [];
    for i := 0 to |ops|
      invariant d.Valid() && id < d.accepted
      invariant IsRun(d.lim, ops[..i], states) && states[0] == old(d.State()) && states[i] == d.State()
      invariant Within(d.lim, d.table, d.requests, id, n - Ticks(ops[..i]))
    {
      TicksPrefix(ops, i);
      Happen(d, ops[i], id, n - Ticks(ops[..i]));
      RunOn(d.lim, ops[..i], states, ops[i], d.State());
      assert ops[..i] + [ops[i]] == ops[..i + 1];
      states := states + [d.State()];
    }
    assert ops[..|ops|] == ops;
    if n <= Ticks(ops) {
      OutOfTime(d.lim, d.table, d.requests, d.found, d.failed, d.accepted, id, n - Ticks(ops));
    }
  }

  /** Whatever happens before and after: a query that is accepted gets its callback exactly once, at
      the latest with timer tick number 2 * S * (1 + R(R-1)/2) after it. */
  method CalledBackOnce(d: Resolver, name: seq<Byte>, family: AddrType, canBind: bool, after: seq<Op>)
    returns (r: Reply, id: nat, ghost states: seq<View>)
    requires d.Valid()
    modifies d
    ensures d.Valid() && id == old(d.accepted)
    ensures r == InProgress <==>
      && Askable(name) && Known(old(d.table), Plain(name), family).None? && old(d.servers)[0]
      && Acceptable(old(d.State()), Plain(name), family, canBind)
    ensures r == InProgress ==> IsRun(d.lim, after, states) && states[|after|] == d.State()
                                && Follows(d.lim, old(d.State()), Query(name, family, canBind), states[0])
    ensures r == InProgress && MostTicks(d.lim) <= Ticks(after) ==> d.found[id] + d.failed[id] == 1
  {
    hide Accounted, PortsUsed, DistinctTxids, TicksLeft, Answerable, AllInRange, Within, MostTicks, Follows, IsRun, Acceptable,
      Known, Plain, Askable;
    id := d.accepted;
    r := d.GetHostByName(name, family, canBind);
    states := [];
    if r == InProgress {
      states := Drive(d, after, id, MostTicks(d.lim));
    }
  }
}
