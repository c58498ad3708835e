/** What the DNS resolver does on each event, as a relation between the states before and after it. */
module DnsSteps {
  import opened Octets
  import opened Options
  import opened DnsTable
  import opened DnsNames
  import opened DnsResponse

  const TXIDS := 0x10000

  predicate Unasked(t: seq<Entry>, txid: nat) {
    forall i :: 0 <= i < |t| && t[i].state.Asking? ==> t[i].txid != txid
  }

  /** There is always a free transaction id, so the search for one can succeed. */
  lemma {:induction false} FreeTxidExists(t: seq<Entry>, n: nat)
    requires |t| < n
    ensures exists x: nat :: x < n && Unasked(t, x)
    decreases n
  {
    if i :| 0 <= i < |t| && t[i].state.Asking? && t[i].txid == n - 1 {
      var rest := t[..i] + t[i + 1..];
      FreeTxidExists(rest, n - 1);
      var x: nat :| x < n - 1 && Unasked(rest, x);
      forall j | 0 <= j < |t| && t[j].state.Asking? ensures t[j].txid != x {
        if j < i {
          assert rest[j] == t[j];
        } else if i < j {
          assert rest[j - 1] == t[j];
        }
      }
      assert Unasked(t, x);
    } else {
      assert Unasked(t, n - 1);
    }
  }

  const MAX_TTL := 604800

  /** (u8_t)(dns_seqno - entry->seqno). */
  function Age(now: nat, then': nat): nat {
    (now + 256 - then' % 256) % 256
  }

  /** What `dns_call_found` leaves in the entry it is about. */
  function Resolved(e: Entry, lim: Limits, ok: bool): Entry {
    e.(pcb := lim.ports,
       family := if !ok then e.family else if e.family.V6? || e.family.V6ThenV4? then V6 else V4)
  }

  // ---------------------------------------------------------------- queries on the wire

  /** A packet to a server, from a port. */
  datatype Datagram = Datagram(server: nat, port: nat, bytes: seq<Byte>)

  /** The header: the id, the flag "recursion desired", and one question. */
  function QueryHeader(txid: nat): (h: seq<Byte>)
    ensures |h| == HEADER
  {
    Two(txid % TXIDS) + [1, 0] + Two(1) + Two(0) + Two(0) + Two(0)
  }

  /** The question: name, type and class. */
  function QuestionBytes(name: seq<Byte>, family: AddrType): seq<Byte> {
    Encode(name) + Two(TypeOf(AsksV6(family))) + Two(CLASS_IN)
  }

  /** The query that entry `e` stands for. */
  function QueryOf(e: Entry): Datagram {
    Datagram(e.server, e.pcb, QueryHeader(e.txid) + QuestionBytes(e.name, e.family))
  }

  // ---------------------------------------------------------------- the state

  /** What a request asks for. */
  datatype Question = Question(name: seq<Byte>, family: AddrType)

  /** The resolver between events. `questions` holds what each accepted request asked for; `found` and `failed` hold the
      callbacks called with an address, and without; `given` holds the addresses; `sent` holds the packets sent. */
  datatype View = View(table: seq<Entry>, requests: seq<Request>, pcbs: seq<bool>, servers: seq<bool>, lastPcb: nat,
                       seqno: nat, accepted: nat, questions: seq<Question>, found: multiset<nat>,
                       failed: multiset<nat>, given: map<nat, seq<Byte>>, sent: seq<Datagram>)

  ghost predicate SizedView(lim: Limits, v: View) {
    && lim.Ok() && |v.table| <= 255 && |v.requests| == |v.table|
    && |v.pcbs| == lim.ports && |v.servers| == lim.servers && v.lastPcb < lim.ports && v.seqno < 256
    && Accounted(v.requests, v.found, v.failed, v.accepted) && |v.questions| == v.accepted
  }

  /** Nothing is asked, and nobody has asked. */
  ghost predicate Idle(v: View) {
    && (forall i :: 0 <= i < |v.table| ==> v.table[i].state.Unused?)
    && (forall r :: 0 <= r < |v.requests| ==> v.requests[r].Free?)
    && v.accepted == 0 && v.found == multiset{} && v.failed == multiset{} && v.given == map[] && v.sent == []
  }

  /** Ids of asked entries differ, requests wait for asked entries, the open ports are those that asked entries use, and
      every accepted request waits or has been called, once. */
  ghost predicate Sound(lim: Limits, v: View) {
    && SizedView(lim, v)
    && DistinctTxids(v.table) && AllInRange(lim, v.table) && Answerable(v.table, v.requests) && PortsUsed(v.table, v.pcbs)
  }

  // ---------------------------------------------------------------- ticks

  /** Entry `e`, given up. */
  function Flushed(lim: Limits, e: Entry): Entry {
    Resolved(e, lim, false).(state := Unused)
  }

  /** The entry goes on being asked: there are tries left, and if it is asked again now, its server is set. */
  predicate GoesOn(lim: Limits, servers: seq<bool>, e: Entry)
    requires lim.Ok() && |servers| == lim.servers && e.state.Asking? && InRange(lim, e)
  {
    OnTick(lim, servers, e).0 && (1 < e.tmr || servers[OnTick(lim, servers, e).1.server])
  }

  /** An entry after a tick. */
  ghost function Ticked(lim: Limits, servers: seq<bool>, e: Entry): Entry
    requires lim.Ok() && |servers| == lim.servers && InRange(lim, e)
  {
    if e.state.Asking? then
      var next := OnTick(lim, servers, e).1;
      if GoesOn(lim, servers, e) then next else Flushed(lim, next)
    else if e.state.Done? then
      if e.ttl <= 1 then e.(ttl := 0, state := Unused) else e.(ttl := e.ttl - 1)
    else e
  }

  /** The entry is asked again with this tick. */
  predicate Resent(lim: Limits, servers: seq<bool>, e: Entry)
    requires lim.Ok() && |servers| == lim.servers && InRange(lim, e)
  {
    e.state.Asking? && e.tmr <= 1 && GoesOn(lim, servers, e)
  }

  /** What is sent with a tick, as far as the first `n` entries. */
  ghost function TickSends(lim: Limits, servers: seq<bool>, t: seq<Entry>, n: nat): seq<Datagram>
    requires lim.Ok() && |servers| == lim.servers && n <= |t| && AllInRange(lim, t)
  {
    if n == 0 then []
    else
      TickSends(lim, servers, t, n - 1)
      + if Resent(lim, servers, t[n - 1]) then [QueryOf(Ticked(lim, servers, t[n - 1]))] else []
  }

  /** The requests left when those of the entries that are not asked any more have been called. */
  ghost predicate CalledFor(t: seq<Entry>, q: seq<Request>, q': seq<Request>, n: nat) {
    && |q'| == |q|
    && forall r :: 0 <= r < |q| ==>
         q'[r] == if q[r].Pending? && q[r].idx < n && q[r].idx < |t| && !t[q[r].idx].state.Asking? then Free else q[r]
  }

  ghost predicate TickOn(lim: Limits, v: View, w: View)
    requires Sound(lim, v)
  {
    && w == v.(table := w.table, requests := w.requests, pcbs := w.pcbs, failed := w.failed,
               sent := v.sent + TickSends(lim, v.servers, v.table, |v.table|))
    && |w.table| == |v.table| && (forall i :: 0 <= i < |v.table| ==> w.table[i] == Ticked(lim, v.servers, v.table[i]))
    && CalledFor(w.table, v.requests, w.requests, |v.table|)
  }

  // ---------------------------------------------------------------- packets

  /** Only entry `i` and what follows from it has changed. */
  ghost predicate OnlyAt(v: View, i: nat, w: View) {
    && i < |v.table| == |w.table|
    && w == v.(table := v.table[i := w.table[i]], requests := w.requests, pcbs := w.pcbs, found := w.found,
               failed := w.failed, given := w.given)
  }

  /** Entry `i` is given up: its requests are called without an address. */
  ghost predicate GivenUp(lim: Limits, v: View, i: nat, e: Entry, w: View) {
    OnlyAt(v, i, w) && w.table[i] == Flushed(lim, e) && w.requests == Cleared(v.requests, i) && w.found == v.found
    && w.given == v.given
  }

  /** Entry `i` is `e` and is asked from the start under a new id, or given up if there is no server. */
  ghost predicate Asked(lim: Limits, v: View, i: nat, e: Entry, w: View) {
    && i < |v.table| == |w.table| && |v.servers| > 0 && w.table[i].txid < TXIDS
    && var asked := e.(state := EntryState.Asking, txid := w.table[i].txid, server := 0, tmr := 1, retries := 0);
       if v.servers[0] then w == v.(table := v.table[i := asked], sent := v.sent + [QueryOf(asked)])
       else GivenUp(lim, v, i, asked, w)
  }

  /** The address goes to the requests that wait for entry `i`, as far as the first `n`. */
  ghost function GivenTo(given: map<nat, seq<Byte>>, q: seq<Request>, i: nat, address: seq<Byte>, n: nat): map<nat, seq<Byte>>
    requires n <= |q|
  {
    if n == 0 then given
    else
      var so := GivenTo(given, q, i, address, n - 1);
      if q[n - 1].Pending? && q[n - 1].idx == i then so[q[n - 1].id := address] else so
  }

  ghost predicate HandledOn(lim: Limits, v: View, i: nat, outcome: Outcome, w: View)
    requires i < |v.table|
  {
    var e := v.table[i];
    match outcome
    case Ignored => w == v
    case Answered(ttl, address) =>
      && OnlyAt(v, i, w) && w.requests == Cleared(v.requests, i) && w.failed == v.failed
      && w.given == GivenTo(v.given, v.requests, i, address, |v.requests|)
      && w.table[i] == Resolved(e, lim, true).(state := if ttl == 0 then Unused else Done, ipaddr := address,
                                               ttl := if ttl > MAX_TTL then MAX_TTL else ttl)
    case Refused =>
      if e.server + 1 < |v.servers| && v.servers[e.server + 1]
      then
        var next := e.(server := e.server + 1, tmr := 1, retries := 0);
        w == v.(table := v.table[i := next], sent := v.sent + [QueryOf(next)])
      else GivenUp(lim, v, i, e, w)
    case NoAddress =>
      if e.family.TwoFamilies() then Asked(lim, v, i, e.(family := e.family.Second()), w) else GivenUp(lim, v, i, e, w)
  }

  /** What a packet from the servers `sender` says to entry `e`. */
  function Says(m: Message, sender: set<nat>, e: Entry): Outcome {
    Reading(m, e.name, e.family, e.server in sender)
  }

  predicate AskedUnder(e: Entry, txid: nat) {
    e.state.Asking? && e.txid == txid
  }

  /** A packet concerns the one entry that is asked under its id; `sender` are the servers with the address that it comes
      from. */
  ghost predicate PacketOn(lim: Limits, v: View, m: Message, sender: set<nat>, w: View) {
    if |m| < HEADER + QUESTION || Unasked(v.table, U16(m, 0)) then w == v
    else exists i :: 0 <= i < |v.table| && AskedUnder(v.table[i], U16(m, 0))
                     && HandledOn(lim, v, i, Says(m, sender, v.table[i]), w)
  }

  // ---------------------------------------------------------------- queries

  /** An entry is being asked for this name and family. */
  predicate Duplicate(e: Entry, name: seq<Byte>, family: AddrType) {
    e.state == EntryState.Asking && SameName(name, e.name) && e.family == family
  }

  /** An entry that may be taken: unused, or finished and, on an 8-bit count, not of the latest query. */
  predicate Usable(e: Entry, seqno: nat) {
    e.state.Unused? || (e.state.Done? && Age(seqno, e.seqno) > 0)
  }

  /** The entry that a new query takes: the first unused one, or else the first of the oldest finished ones. */
  ghost predicate Picked(t: seq<Entry>, seqno: nat, i: nat) {
    && i < |t| && Usable(t[i], seqno)
    && if t[i].state.Unused? then forall j :: 0 <= j < i ==> !t[j].state.Unused?
       else forall j :: 0 <= j < |t| ==>
              && !t[j].state.Unused?
              && (t[j].state.Done? ==> Age(seqno, t[j].seqno) <= Age(seqno, t[i].seqno))
              && (t[j].state.Done? && j < i ==> Age(seqno, t[j].seqno) < Age(seqno, t[i].seqno))
  }

  /** How far port `k` is behind port `last`, going round. */
  function Behind(last: nat, k: nat, n: nat): int {
    if k > last then k - last else k - last + n
  }

  /** The port that a new query takes: the first closed one if one can be opened, or else the next open one. */
  ghost predicate PortPicked(pcbs: seq<bool>, last: nat, canBind: bool, k: nat) {
    && k < |pcbs|
    && if canBind && exists j :: 0 <= j < |pcbs| && !pcbs[j]
       then !pcbs[k] && forall j :: 0 <= j < k ==> pcbs[j]
       else pcbs[k] && forall j :: 0 <= j < |pcbs| && pcbs[j] ==> Behind(last, k, |pcbs|) <= Behind(last, j, |pcbs|)
  }

  /** A query can be accepted: there is a free request, and a query to share or an entry and a port. */
  ghost predicate Acceptable(v: View, name: seq<Byte>, family: AddrType, canBind: bool) {
    && (exists r :: 0 <= r < |v.requests| && v.requests[r].Free?)
    && ((exists i :: 0 <= i < |v.table| && Duplicate(v.table[i], name, family))
        || (&& (exists i :: 0 <= i < |v.table| && Usable(v.table[i], v.seqno))
            && (canBind || exists k :: 0 <= k < |v.pcbs| && v.pcbs[k])))
  }

  /** The request is added to a query that is under way, the first such, in the first free place. */
  ghost predicate SharedOn(v: View, name: seq<Byte>, family: AddrType, d: nat, r: nat, w: View) {
    && d < |v.table| && Duplicate(v.table[d], name, family) && r < |v.requests| && v.requests[r].Free?
    && (forall k :: 0 <= k < d ==> !Duplicate(v.table[k], name, family))
    && (forall k :: 0 <= k < r ==> v.requests[k].Pending?)
    && w == v.(requests := v.requests[r := Pending(v.accepted, d)], accepted := v.accepted + 1,
               questions := v.questions + [Question(name, family)])
  }

  /** Entry `i` and request `r` are taken into use with port `k`. */
  ghost function Begun(v: View, name: seq<Byte>, family: AddrType, i: nat, r: nat, k: nat): View
    requires i < |v.table| && r < |v.requests| && k < |v.pcbs|
  {
    v.(table := v.table[i := v.table[i].(state := New, seqno := v.seqno, family := family, name := name, pcb := k)],
       requests := v.requests[r := Pending(v.accepted, i)], pcbs := v.pcbs[k := true], lastPcb := k,
       seqno := (v.seqno + 1) % 256, accepted := v.accepted + 1,
       questions := v.questions + [Question(name, family)])
  }

  /** A new query, in the first free request. */
  ghost predicate BegunOn(lim: Limits, v: View, name: seq<Byte>, family: AddrType, canBind: bool, i: nat, r: nat, k: nat,
                          w: View) {
    && Picked(v.table, v.seqno, i) && r < |v.requests| && v.requests[r].Free?
    && (forall j :: 0 <= j < r ==> v.requests[j].Pending?)
    && PortPicked(v.pcbs, v.lastPcb, canBind, k)
    && Asked(lim, Begun(v, name, family, i, r, k), i, Begun(v, name, family, i, r, k).table[i], w)
  }

  ghost function Emptied(lim: Limits, v: View, name: seq<Byte>, family: AddrType, i: nat): View
    requires i < |v.table|
  {
    var e := v.table[i].(state := Unused, seqno := v.seqno, family := family, name := name, pcb := lim.ports);
    v.(table := v.table[i := e])
  }

  /** Nothing is accepted; for want of a port an entry may be emptied. */
  ghost predicate RefusedOn(lim: Limits, v: View, name: seq<Byte>, family: AddrType, w: View) {
    w == v || exists i :: Picked(v.table, v.seqno, i) && w == Emptied(lim, v, name, family, i)
  }

  ghost predicate QueryOn(lim: Limits, v: View, name: seq<Byte>, family: AddrType, canBind: bool, w: View) {
    if !Acceptable(v, name, family, canBind) then RefusedOn(lim, v, name, family, w)
    else if exists i :: 0 <= i < |v.table| && Duplicate(v.table[i], name, family)
    then exists d, r :: SharedOn(v, name, family, d, r, w)
    else exists i, r, k :: BegunOn(lim, v, name, family, canBind, i, r, k, w)
  }

  // ---------------------------------------------------------------- the cache

  /** A finished entry holds an address of the family for this name. */
  predicate Cached(e: Entry, name: seq<Byte>, v6: bool) {
    e.state == EntryState.Done && SameName(name, e.name) && (|e.ipaddr| == 16 <==> v6)
  }

  /** The addresses that a request of this kind can do with. */
  predicate Wanted(family: AddrType, v6: bool) {
    match family
    case V4 => !v6
    case V6 => v6
    case _ => true
  }

  /** The address in the first such entry, from the `k`-th on. */
  function CachedFrom(t: seq<Entry>, k: nat, name: seq<Byte>, v6: bool): (r: Option<seq<Byte>>)
    ensures r.None? ==> forall j :: k <= j < |t| ==> !Cached(t[j], name, v6)
    ensures r.Some? ==> exists j :: k <= j < |t| && Cached(t[j], name, v6) && r.value == t[j].ipaddr
    decreases |t| - k
  {
    if k >= |t| then None
    else if Cached(t[k], name, v6) then Some(t[k].ipaddr)
    else CachedFrom(t, k + 1, name, v6)
  }

  /** The address of the first family, or else of the second. */
  function Known(t: seq<Entry>, name: seq<Byte>, family: AddrType): (r: Option<seq<Byte>>)
    ensures r.None? ==> forall j, v6 :: 0 <= j < |t| && Cached(t[j], name, v6) ==> !Wanted(family, v6)
    ensures r.Some? ==> exists j, v6 :: 0 <= j < |t| && Cached(t[j], name, v6) && Wanted(family, v6) && r.value == t[j].ipaddr
  {
    var first := CachedFrom(t, 0, name, AsksV6(family));
    assert Wanted(family, AsksV6(family));
    if first.Some? || !family.TwoFamilies() then first
    else
      assert Wanted(family, AsksV6(family.Second()));
      CachedFrom(t, 0, name, AsksV6(family.Second()))
  }

  /** A name without the dot at its end. */
  function Plain(name: seq<Byte>): seq<Byte> {
    if name != [] && name[|name| - 1] == DOT then name[..|name| - 1] else name
  }

  predicate Askable(name: seq<Byte>) {
    name != [] && |Plain(name)| <= MAX_NAME
  }

  // ---------------------------------------------------------------- runs

  /** What can happen to a resolver. */
  datatype Op =
    | Query(name: seq<Byte>, family: AddrType, canBind: bool)
    | TimerTick
    | Packet(m: Message, sender: set<nat>)
    | Server(k: nat, isSet: bool)

  function Ticks(ops: seq<Op>): nat {
    if ops == [] then 0 else (if ops[0].TimerTick? then 1 else 0) + Ticks(ops[1..])
  }

  lemma {:induction false} TicksPrefix(ops: seq<Op>, i: nat)
    requires i < |ops|
    ensures Ticks(ops[..i + 1]) == Ticks(ops[..i]) + if ops[i].TimerTick? then 1 else 0
    decreases i
  {
    if i == 0 {
      assert ops[..1] == [ops[0]] && ops[..1][1..] == [];
    } else {
      assert ops[..i + 1][1..] == ops[1..][..i] && ops[..i][1..] == ops[1..][..i - 1];
      TicksPrefix(ops[1..], i - 1);
    }
  }

  /** A query that the cache can answer, or that cannot be asked, changes nothing. */
  ghost predicate Follows(lim: Limits, v: View, op: Op, w: View)
    requires Sound(lim, v)
  {
    match op
    case Query(name, family, canBind) =>
      if Askable(name) && Known(v.table, Plain(name), family).None? && v.servers[0]
      then QueryOn(lim, v, Plain(name), family, canBind, w) else w == v
    case TimerTick => TickOn(lim, v, w)
    case Packet(m, sender) => PacketOn(lim, v, m, sender, w)
    case Server(k, isSet) => w == if k < |v.servers| then v.(servers := v.servers[k := isSet]) else v
  }

  /** The states of a resolver before and after each of the events. */
  ghost predicate IsRun(lim: Limits, ops: seq<Op>, states: seq<View>) {
    && |states| == |ops| + 1
    && (forall k :: 0 <= k < |states| ==> Sound(lim, states[k]))
    && (forall k :: 0 <= k < |ops| ==> Follows(lim, states[k], ops[k], states[k + 1]))
  }

  lemma RunOn(lim: Limits, ops: seq<Op>, states: seq<View>, op: Op, w: View)
    requires IsRun(lim, ops, states) && Sound(lim, w) && Follows(lim, states[|ops|], op, w)
    ensures IsRun(lim, ops + [op], states + [w])
  {
    hide Sound, Follows;
  }
}
