/** The tables of the DNS resolver as values: what a consistent resolver looks like, and how long
    an entry can stay unanswered. `DnsResolver` holds the code that changes them. */
module DnsTable {
  import opened Octets
  import DnsNames

  datatype EntryState = Unused | New | Asking | Done

  /** LWIP_DNS_ADDRTYPE_*: the two last ask for a second family when the first gives no answer. */
  datatype AddrType = V4 | V6 | V4ThenV6 | V6ThenV4 {
    predicate TwoFamilies() {
      V4ThenV6? || V6ThenV4?
    }

    function Second(): AddrType {
      if V4ThenV6? then V6 else V4
    }
  }

  /** `struct dns_table_entry`. */
  datatype Entry = Entry(state: EntryState, name: seq<Byte>, txid: nat, server: nat, tmr: nat, retries: nat,
                         family: AddrType, pcb: nat, ttl: nat, seqno: nat, ipaddr: seq<Byte>)

  /** `struct dns_req_entry`; `id` stands for the callback and its argument. */
  datatype Request = Free | Pending(id: nat, idx: nat)

  /** DNS_MAX_SERVERS, DNS_MAX_RETRIES, DNS_MAX_SOURCE_PORTS; the last fills `pcb` of an entry that
      uses no port. */
  datatype Limits = Limits(servers: nat, retries: nat, ports: nat) {
    predicate Ok() {
      1 <= servers <= 255 && 1 <= retries <= 255 && 1 <= ports <= 255
    }
  }

  // ---------------------------------------------------------------- consistency

  ghost predicate DistinctTxids(t: seq<Entry>) {
    forall i, j :: 0 <= i < j < |t| && t[i].state.Asking? && t[j].state.Asking? ==> t[i].txid != t[j].txid
  }

  ghost predicate InRange(lim: Limits, e: Entry) {
    && !e.state.New?
    && (e.state.Asking? ==>
          && 1 <= e.tmr && e.retries < lim.retries && e.tmr <= e.retries + 1 && e.server < lim.servers && e.pcb < lim.ports
          && |e.name| <= DnsNames.MAX_NAME && e.txid < 0x10000)
  }

  ghost predicate AllInRange(lim: Limits, t: seq<Entry>) {
    forall i :: 0 <= i < |t| ==> InRange(lim, t[i])
  }

  /** Pending requests belong to entries that are being asked. */
  ghost predicate Answerable(t: seq<Entry>, q: seq<Request>) {
    forall r :: 0 <= r < |q| && q[r].Pending? ==> q[r].idx < |t| && t[q[r].idx].state.Asking?
  }

  ghost predicate UsesPort(e: Entry, k: nat) {
    e.state.Asking? && e.pcb == k
  }

  /** The open ports are those that an asked entry uses. */
  ghost predicate PortsUsed(t: seq<Entry>, pcbs: seq<bool>) {
    forall k :: 0 <= k < |pcbs| ==> (pcbs[k] <==> exists i :: 0 <= i < |t| && UsesPort(t[i], k))
  }

  // ---------------------------------------------------------------- counting callbacks

  function Is(q: Request, id: nat): nat {
    if q.Pending? && q.id == id then 1 else 0
  }

  /** How many requests wait for callback `id`. */
  function Waiting(q: seq<Request>, id: nat): nat {
    if q == [] then 0 else Is(q[0], id) + Waiting(q[1..], id)
  }

  lemma {:induction false} WaitingUpdate(q: seq<Request>, r: nat, x: Request, id: nat)
    requires r < |q|
    ensures Waiting(q[r := x], id) + Is(q[r], id) == Waiting(q, id) + Is(x, id)
  {
    var up := q[r := x];
    if r == 0 {
      assert up[1..] == q[1..];
    } else {
      assert up[1..] == q[1..][r - 1 := x];
      WaitingUpdate(q[1..], r - 1, x, id);
    }
  }

  lemma {:induction false} WaitingSome(q: seq<Request>, id: nat)
    ensures 0 < Waiting(q, id) <==> exists r :: 0 <= r < |q| && Is(q[r], id) == 1
  {
    if q != [] {
      WaitingSome(q[1..], id);
      if r :| 0 <= r < |q[1..]| && Is(q[1..][r], id) == 1 {
        assert q[r + 1] == q[1..][r];
      }
      if r :| 0 <= r < |q| && Is(q[r], id) == 1 {
        assert r == 0 || q[1..][r - 1] == q[r];
      }
    }
  }

  /** Every accepted request was called back once or still waits once, and nobody else was called. */
  ghost predicate Accounted(q: seq<Request>, found: multiset<nat>, failed: multiset<nat>, accepted: nat) {
    forall id: nat :: found[id] + failed[id] + Waiting(q, id) == if id < accepted then 1 else 0
  }

  // ---------------------------------------------------------------- how long an entry can take

  /** Timer ticks on one server, from the first query to the last timeout: 1 + 1 + 2 + ... + (R-1). */
  function ServerTime(lim: Limits): nat
    requires lim.Ok()
  {
    1 + From(1, lim.retries)
  }

  /** i + (i+1) + ... + (n-1). */
  function From(i: nat, n: nat): nat
    decreases n - i
  {
    if i < n then i + From(i + 1, n) else 0
  }

  lemma {:induction false} FromClosed(i: nat, n: nat)
    requires i <= n
    ensures 2 * From(i, n) == n * (n - 1) - i * (i - 1)
    decreases n - i
  {
    if i < n {
      FromClosed(i + 1, n);
    }
  }

  /** n * k, by addition. */
  function Times(n: nat, k: nat): nat {
    if n == 0 then 0 else k + Times(n - 1, k)
  }

  lemma {:induction false} TimesIsProduct(n: nat, k: nat)
    ensures Times(n, k) == n * k
  {
    if 0 < n {
      TimesIsProduct(n - 1, k);
    }
  }

  lemma {:induction false} TimesMonotone(m: nat, n: nat, k: nat)
    requires m <= n
    ensures Times(m, k) <= Times(n, k)
  {
    if m < n {
      TimesMonotone(m, n - 1, k);
    }
  }

  /** The ticks an asked entry can still take: on this server, on the servers after it, and on all
      servers again if a second address family is left. */
  function TicksLeft(lim: Limits, e: Entry): nat
    requires lim.Ok() && e.state.Asking? && InRange(lim, e)
  {
    e.tmr + From(e.retries + 1, lim.retries)
    + Times(lim.servers - 1 - e.server, ServerTime(lim))
    + (if e.family.TwoFamilies() then Times(lim.servers, ServerTime(lim)) else 0)
  }

  /** The most ticks any entry can take. */
  function MostTicks(lim: Limits): nat
    requires lim.Ok()
  {
    2 * lim.servers * (1 + lim.retries * (lim.retries - 1) / 2)
  }

  lemma ServerTimeClosed(lim: Limits)
    requires lim.Ok()
    ensures ServerTime(lim) == 1 + lim.retries * (lim.retries - 1) / 2
  {
    FromClosed(1, lim.retries);
  }

  /** What is left on the current server never exceeds the time of a whole server. */
  lemma {:induction false} FromShrinks(r: nat, n: nat)
    requires r < n
    ensures r + 1 + From(r + 1, n) <= 1 + From(1, n)
    decreases r
  {
    if 0 < r {
      FromShrinks(r - 1, n);
    }
  }

  lemma TicksLeftAtMost(lim: Limits, e: Entry)
    requires lim.Ok() && e.state.Asking? && InRange(lim, e)
    ensures 1 <= TicksLeft(lim, e) <= MostTicks(lim)
  {
    var k := ServerTime(lim);
    FromShrinks(e.retries, lim.retries);
    TimesMonotone(lim.servers - 1 - e.server, lim.servers - 1, k);
    assert k + Times(lim.servers - 1, k) == Times(lim.servers, k);
    assert TicksLeft(lim, e) <= Times(lim.servers, k) + Times(lim.servers, k);
    TimesIsProduct(lim.servers, k);
    ServerTimeClosed(lim);
    Doubled(lim.servers, k);
  }

  lemma Doubled(s: nat, k: nat)
    ensures s * k + s * k == 2 * s * k
  {
  }

  // ---------------------------------------------------------------- finishing an entry

  /** The requests that are left after entry `idx` was called back. */
  function Cleared(q: seq<Request>, idx: nat): (c: seq<Request>)
    ensures |c| == |q|
    ensures forall r :: 0 <= r < |q| ==> c[r] == if q[r].Pending? && q[r].idx == idx then Free else q[r]
  {
    seq(|q|, r requires 0 <= r < |q| => if q[r].Pending? && q[r].idx == idx then Free else q[r])
  }

  /** Some other asked entry uses the port of entry `idx`. */
  ghost predicate Shared(t: seq<Entry>, idx: nat)
    requires idx < |t|
  {
    exists i :: 0 <= i < |t| && i != idx && UsesPort(t[i], t[idx].pcb)
  }

  /** The ports after entry `idx` gave up its own. */
  ghost function ClosePort(t: seq<Entry>, pcbs: seq<bool>, idx: nat): seq<bool>
    requires idx < |t|
  {
    if t[idx].pcb < |pcbs| && !Shared(t, idx) then pcbs[t[idx].pcb := false] else pcbs
  }

  lemma FinishPorts(t: seq<Entry>, pcbs: seq<bool>, idx: nat, e: Entry)
    requires idx < |t| && PortsUsed(t, pcbs) && t[idx].state.Asking? && !e.state.Asking?
    ensures PortsUsed(t[idx := e], ClosePort(t, pcbs, idx))
  {
    var t', pcbs' := t[idx := e], ClosePort(t, pcbs, idx);
    forall k | 0 <= k < |pcbs'| ensures pcbs'[k] <==> exists i :: 0 <= i < |t'| && UsesPort(t'[i], k) {
      if i :| 0 <= i < |t'| && UsesPort(t'[i], k) {
        assert UsesPort(t[i], k);
      }
      if pcbs'[k] {
        var i :| 0 <= i < |t| && UsesPort(t[i], k);
        if i == idx {
          var j :| 0 <= j < |t| && j != idx && UsesPort(t[j], t[idx].pcb);
          assert UsesPort(t'[j], k);
        } else {
          assert UsesPort(t'[i], k);
        }
      }
    }
  }

  /** An entry that stops being asked, with its requests called back and its port given up, leaves
      everything else consistent. */
  lemma FinishKeeps(lim: Limits, t: seq<Entry>, q: seq<Request>, idx: nat, e: Entry)
    requires idx < |t| && DistinctTxids(t) && Answerable(t, q)
    requires forall i :: 0 <= i < |t| && i != idx ==> InRange(lim, t[i])
    requires e.state.Unused? || e.state.Done?
    ensures DistinctTxids(t[idx := e]) && AllInRange(lim, t[idx := e]) && Answerable(t[idx := e], Cleared(q, idx))
  {
  }

  // ---------------------------------------------------------------- asking an entry

  lemma SamePorts(a: seq<Entry>, b: seq<Entry>, pcbs: seq<bool>)
    requires |a| == |b| && forall j, k :: 0 <= j < |a| ==> (UsesPort(a[j], k) <==> UsesPort(b[j], k))
    requires PortsUsed(a, pcbs)
    ensures PortsUsed(b, pcbs)
  {
    forall k | 0 <= k < |pcbs| ensures pcbs[k] <==> exists j :: 0 <= j < |b| && UsesPort(b[j], k) {
      if pcbs[k] {
        var j :| 0 <= j < |a| && UsesPort(a[j], k);
        assert UsesPort(b[j], k);
      }
      if j :| 0 <= j < |b| && UsesPort(b[j], k) {
        assert UsesPort(a[j], k);
      }
    }
  }

  /** An entry whose id, timer and server change, but not its port, stays consistent with the rest. */
  lemma AskKeeps(lim: Limits, t: seq<Entry>, q: seq<Request>, pcbs: seq<bool>, i: nat, e: Entry)
    requires i < |t| && e.state.Asking? && InRange(lim, e) && e.pcb == t[i].pcb
    requires forall j :: 0 <= j < |t| && j != i ==> InRange(lim, t[j]) && (t[j].state.Asking? ==> t[j].txid != e.txid)
    requires DistinctTxids(t)
    requires Answerable(t[i := t[i].(state := Asking)], q) && PortsUsed(t[i := t[i].(state := Asking)], pcbs)
    ensures DistinctTxids(t[i := e]) && AllInRange(lim, t[i := e]) && Answerable(t[i := e], q) && PortsUsed(t[i := e], pcbs)
  {
    SamePorts(t[i := t[i].(state := Asking)], t[i := e], pcbs);
  }

  // ---------------------------------------------------------------- the passing of time

  /** Every request that still waits waited before, for an entry that has come at least `d` ticks closer. */
  ghost predicate Aged(lim: Limits, t: seq<Entry>, q: seq<Request>, t': seq<Entry>, q': seq<Request>, d: nat)
    requires lim.Ok() && AllInRange(lim, t) && AllInRange(lim, t')
    requires Answerable(t, q) && Answerable(t', q')
  {
    && |q'| == |q|
    && forall r :: 0 <= r < |q| && q'[r].Pending? ==>
         q'[r] == q[r] && TicksLeft(lim, t'[q'[r].idx]) + d <= TicksLeft(lim, t[q[r].idx])
  }

  /** Entry `e` has become `e'`: if it is asked now, it was asked before and is `d` ticks closer to its end. */
  ghost predicate Closer(lim: Limits, e: Entry, e': Entry, d: nat)
    requires lim.Ok() && InRange(lim, e) && InRange(lim, e')
  {
    e'.state.Asking? ==> e.state.Asking? && TicksLeft(lim, e') + d <= TicksLeft(lim, e)
  }

  /** No request is new. */
  ghost predicate Fewer(q: seq<Request>, q': seq<Request>) {
    |q'| == |q| && forall r :: 0 <= r < |q| && q'[r].Pending? ==> q'[r] == q[r]
  }

  lemma CloserAges(lim: Limits, t: seq<Entry>, q: seq<Request>, t': seq<Entry>, q': seq<Request>, d: nat)
    requires lim.Ok() && AllInRange(lim, t) && AllInRange(lim, t') && |t| == |t'|
    requires Answerable(t, q) && Answerable(t', q') && Fewer(q, q')
    requires forall j :: 0 <= j < |t| ==> Closer(lim, t[j], t'[j], d)
    ensures Aged(lim, t, q, t', q', d)
  {
    forall r | 0 <= r < |q| && q'[r].Pending?
      ensures q'[r] == q[r] && TicksLeft(lim, t'[q'[r].idx]) + d <= TicksLeft(lim, t[q[r].idx])
    {
      assert Closer(lim, t[q[r].idx], t'[q[r].idx], d);
    }
  }

  /** Callback `id` comes within `n` ticks. */
  ghost predicate Within(lim: Limits, t: seq<Entry>, q: seq<Request>, id: nat, n: int)
    requires lim.Ok() && AllInRange(lim, t) && Answerable(t, q)
  {
    forall r :: 0 <= r < |q| && q[r].Pending? && q[r].id == id ==> TicksLeft(lim, t[q[r].idx]) <= n
  }

  /** One timer tick on an asked entry: whether it is asked on, and what becomes of it. */
  function OnTick(lim: Limits, servers: seq<bool>, e: Entry): (r: (bool, Entry))
    requires lim.Ok() && |servers| == lim.servers && e.state.Asking? && InRange(lim, e)
    ensures r.0 ==> r.1.state.Asking? && InRange(lim, r.1) && TicksLeft(lim, r.1) + 1 == TicksLeft(lim, e)
    ensures r.1 == e.(tmr := r.1.tmr, retries := r.1.retries, server := r.1.server)
  {
    if e.tmr > 1 then (true, e.(tmr := e.tmr - 1))
    else if e.retries + 1 < lim.retries then (true, e.(retries := e.retries + 1, tmr := e.retries + 1))
    else if e.server + 1 < lim.servers && servers[e.server + 1] then
      (true, e.(server := e.server + 1, tmr := 1, retries := 0))
    else (false, e.(tmr := 0, retries := lim.retries))
  }

  // ---------------------------------------------------------------- taking an entry into use

  /** An idle entry that is given port `k` is the only new user of a port. */
  lemma StartPorts(t: seq<Entry>, pcbs: seq<bool>, i: nat, e: Entry)
    requires i < |t| && !t[i].state.Asking? && PortsUsed(t, pcbs) && e.state.Asking? && e.pcb < |pcbs|
    ensures PortsUsed(t[i := e], pcbs[e.pcb := true])
  {
    var b := t[i := e];
    var pcbs' := pcbs[e.pcb := true];
    forall k | 0 <= k < |pcbs'| ensures pcbs'[k] <==> exists j :: 0 <= j < |b| && UsesPort(b[j], k) {
      if k == e.pcb {
        assert UsesPort(b[i], k);
      } else {
        if pcbs'[k] {
          var j :| 0 <= j < |t| && UsesPort(t[j], k);
          assert UsesPort(b[j], k);
        }
        if j :| 0 <= j < |b| && UsesPort(b[j], k) {
          assert UsesPort(t[j], k);
        }
      }
    }
  }

  /** Accepting one more request keeps the account. */
  lemma AcceptKeeps(q: seq<Request>, found: multiset<nat>, failed: multiset<nat>, accepted: nat, r: nat, i: nat)
    requires Accounted(q, found, failed, accepted) && r < |q| && q[r].Free?
    ensures Accounted(q[r := Pending(accepted, i)], found, failed, accepted + 1)
  {
    forall id: nat ensures Waiting(q[r := Pending(accepted, i)], id) == Waiting(q, id) + if id == accepted then 1 else 0 {
      WaitingUpdate(q, r, Pending(accepted, i), id);
    }
  }

  /** Like `Aged`, but the request numbered `id` may be new. */
  ghost predicate AgedBut(lim: Limits, t: seq<Entry>, q: seq<Request>, t': seq<Entry>, q': seq<Request>, id: nat)
    requires lim.Ok() && AllInRange(lim, t) && AllInRange(lim, t')
    requires Answerable(t, q) && Answerable(t', q')
  {
    && |q'| == |q|
    && forall r :: 0 <= r < |q| && q'[r].Pending? && q'[r].id != id ==>
         q'[r] == q[r] && TicksLeft(lim, t'[q'[r].idx]) <= TicksLeft(lim, t[q[r].idx])
  }

  /** The names are equal up to letter case. */
  predicate SameName(a: seq<Byte>, b: seq<Byte>) {
    |a| == |b| && forall i :: 0 <= i < |a| ==> Lower(a[i]) == Lower(b[i])
  }

  /** No other asked entry has the id of entry `i`. */
  lemma OnlyOne(t: seq<Entry>, i: nat)
    requires i < |t| && t[i].state.Asking? && DistinctTxids(t)
    ensures forall j :: 0 <= j < |t| && j != i && t[j].state.Asking? ==> t[j].txid != t[i].txid
  {
  }

  /** A request that waits for entry `i` waits nowhere else. */
  lemma WaitsOnce(q: seq<Request>, found: multiset<nat>, failed: multiset<nat>, accepted: nat, r: nat, i: nat)
    requires Accounted(q, found, failed, accepted) && r < |q| && q[r].Pending? && q[r].idx == i
    ensures Waiting(q, q[r].id) == 1 && Waiting(Cleared(q, i), q[r].id) == 0
  {
    var id := q[r].id;
    assert Is(q[r], id) == 1;
    WaitingSome(q, id);
    WaitingUpdate(q, r, Free, id);
    WaitingSome(q[r := Free], id);
    WaitingSome(Cleared(q, i), id);
    forall k | 0 <= k < |q|
      ensures Is(Cleared(q, i)[k], id) <= Is(q[r := Free][k], id)
    {
    }
  }

  lemma {:induction false} WaitingSame(q: seq<Request>, q': seq<Request>, id: nat)
    requires |q| == |q'| && forall r :: 0 <= r < |q| ==> Is(q[r], id) == Is(q'[r], id)
    ensures Waiting(q, id) == Waiting(q', id)
    decreases |q|
  {
    if q != [] {
      WaitingSame(q[1..], q'[1..], id);
    }
  }
}
