/** How `dns_recv` reads a response (section 4.1 of RFC 1035): its header, its question, and its answers up to the first
    address of the wanted family. */
module DnsResponse {
  import opened Octets
  import opened DnsNames
  import opened DnsTable

  /** What a packet means to the entry whose id it carries: it is ignored, it reports an error, it holds an address of
      the wanted family, or it holds none. */
  datatype Outcome = Ignored | Refused | Answered(ttl: nat, address: seq<Byte>) | NoAddress

  const HEADER := 12
  const QUESTION := 4
  const ANSWER := 10
  const CLASS_IN := 1

  /** The 16 bits at `i`, first byte first. */
  function U16(m: Message, i: nat): nat
    requires i + 2 <= |m|
  {
    m[i] as nat * 256 + m[i + 1] as nat
  }

  function U32(m: Message, i: nat): nat
    requires i + 4 <= |m|
  {
    U16(m, i) * 0x10000 + U16(m, i + 2)
  }

  /** LWIP_DNS_ADDRTYPE_IS_IPV6: the family that is asked for now. */
  predicate AsksV6(family: AddrType) {
    family.V6? || family.V6ThenV4?
  }

  /** The type of the records with an address, and the length of one. */
  function TypeOf(v6: bool): nat {
    if v6 then 28 else 1
  }

  function LengthOf(v6: bool): nat {
    if v6 then 16 else 4
  }

  /** The memory that starts with a name of the table, as far as the model knows it. */
  function Query(name: seq<Byte>): nat -> Byte {
    (i: nat) => if i < |name| then name[i] else 0
  }

  // ---------------------------------------------------------------- what is read

  /** What becomes of `n` answers from `at` on. */
  function Answers(m: Message, at: nat, n: nat, v6: bool): Outcome
    decreases n
  {
    if n == 0 || at >= |m| then NoAddress
    else
      var q := SkipFrom(m, at);
      if q == BAD || q + ANSWER > |m| then Ignored
      else
        var data, len := q + ANSWER, U16(m, q + 8);
        if U16(m, q + 2) == CLASS_IN && U16(m, q) == TypeOf(v6) && len == LengthOf(v6)
        then if data + len > |m| then Ignored else Answered(U32(m, q + 4), m[data..data + len])
        else if data + len > 0xFFFF then Ignored
        else Answers(m, data + len, n - 1, v6)
  }

  /** The question is the one that was sent; `at` is where its name ends. */
  predicate QuestionMatches(m: Message, at: nat, v6: bool) {
    at != BAD && at + QUESTION <= |m| && U16(m, at + 2) == CLASS_IN && U16(m, at) == TypeOf(v6)
  }

  /** A packet with the id of an entry that asks for `name`; `asked` tells that it comes from the server that was asked. */
  function Reading(m: Message, name: seq<Byte>, family: AddrType, asked: bool): Outcome {
    if |m| < HEADER + QUESTION || m[2] < 128 || U16(m, 4) != 1 || !asked then Ignored
    else
      var at := CompareFrom(Query(name), 0, m, HEADER);
      if !QuestionMatches(m, at, AsksV6(family)) then Ignored
      else if m[3] % 16 != 0 then Refused
      else Answers(m, at + QUESTION, U16(m, 6), AsksV6(family))
  }

  lemma AnswersStep(m: Message, at: nat, n: nat, v6: bool)
    requires n > 0 && at < |m|
    ensures var q := SkipFrom(m, at);
      Answers(m, at, n, v6) ==
        if q == BAD || q + ANSWER > |m| then Ignored
        else
          var data, len := q + ANSWER, U16(m, q + 8);
          if U16(m, q + 2) == CLASS_IN && U16(m, q) == TypeOf(v6) && len == LengthOf(v6)
          then if data + len > |m| then Ignored else Answered(U32(m, q + 4), m[data..data + len])
          else if data + len > 0xFFFF then Ignored
          else Answers(m, data + len, n - 1, v6)
  {
  }

  lemma AnswersEnd(m: Message, at: nat, n: nat, v6: bool)
    requires n == 0 || at >= |m|
    ensures Answers(m, at, n, v6) == NoAddress
  {
  }

  /** The part of `dns_recv` that reads the packet for one entry. */
  method Read(m: Message, name: seq<Byte>, family: AddrType, asked: bool) returns (r: Outcome)
    ensures r == Reading(m, name, family, asked)
  {
    hide SkipFrom, CompareFrom, Answers, U16, U32;
    if |m| < HEADER + QUESTION {
      return Ignored;
    }
    var nquestions, nanswers := U16(m, 4), U16(m, 6);
    if m[2] < 128 || nquestions != 1 || !asked {
      return Ignored;
    }
    var idx: nat := CompareName(Query(name), m, HEADER);
    if idx == BAD || idx + QUESTION > |m| {
      return Ignored;
    }
    var v6 := AsksV6(family);
    if U16(m, idx + 2) != CLASS_IN || U16(m, idx) != TypeOf(v6) {
      return Ignored;
    }
    ghost var start := idx + QUESTION;
    idx := idx + QUESTION;
    if m[3] % 16 != 0 {
      return Refused;
    }
    while nanswers > 0 && idx < |m|
      invariant idx <= 0xFFFF && Answers(m, start, U16(m, 6), v6) == Answers(m, idx, nanswers, v6)
      decreases nanswers
    {
      AnswersStep(m, idx, nanswers, v6);
      idx := SkipName(m, idx);
      if idx == BAD || idx + ANSWER > |m| {
        return Ignored;
      }
      var typ, cls, ttl, len := U16(m, idx), U16(m, idx + 2), U32(m, idx + 4), U16(m, idx + 8);
      idx := idx + ANSWER;
      if cls == CLASS_IN && typ == TypeOf(v6) && len == LengthOf(v6) {
        if idx + len > |m| {
          return Ignored;
        }
        return Answered(ttl, m[idx..idx + len]);
      }
      if idx + len > 0xFFFF {
        return Ignored;
      }
      idx := idx + len;
      nanswers := nanswers - 1;
    }
    AnswersEnd(m, idx, nanswers, v6);
    return NoAddress;
  }

  // ---------------------------------------------------------------- what a server sends

  /** The name of a record: in full, or ending in a pointer to another place (section 4.1.4). */
  datatype Owner = Full(labels: seq<seq<Byte>>) | Compressed(labels: seq<seq<Byte>>, hi: Byte, lo: Byte) {
    predicate Ok() {
      AllGood(labels) && (Full? ==> labels != []) && (Compressed? ==> hi >= 192)
    }

    function Bytes(): seq<Byte>
      requires Ok()
    {
      if Full? then Wire(labels) else Prefixed(labels) + [hi, lo]
    }
  }

  datatype Record = Record(owner: Owner, typ: nat, cls: nat, ttl: nat, data: seq<Byte>) {
    predicate Ok() {
      owner.Ok() && typ < 0x10000 && cls < 0x10000 && ttl < 0x1_0000_0000 && |data| < 0x10000
    }

    function Fields(): (s: seq<Byte>)
      requires Ok()
      ensures |s| == ANSWER
    {
      Two(typ) + Two(cls) + Two(ttl / 0x10000) + Two(ttl % 0x10000) + Two(|data|)
    }

    predicate Holds(v6: bool) {
      cls == CLASS_IN && typ == TypeOf(v6) && |data| == LengthOf(v6)
    }
  }

  function Two(n: nat): (s: seq<Byte>)
    requires n < 0x10000
    ensures |s| == 2
  {
    [(n / 256) as Byte, (n % 256) as Byte]
  }

  predicate AllOk(records: seq<Record>) {
    forall i :: 0 <= i < |records| ==> records[i].Ok()
  }

  function Bytes(records: seq<Record>): seq<Byte>
    requires AllOk(records)
  {
    if records == [] then []
    else records[0].owner.Bytes() + records[0].Fields() + records[0].data + Bytes(records[1..])
  }

  /** The message has `s` at `at`. */
  predicate HasAt(m: Message, at: nat, s: seq<Byte>) {
    at + |s| <= |m| && m[at..at + |s|] == s
  }

  lemma HasSplit(m: Message, at: nat, a: seq<Byte>, b: seq<Byte>)
    requires HasAt(m, at, a + b)
    ensures HasAt(m, at, a) && HasAt(m, at + |a|, b)
  {
    assert m[at..at + |a|] == m[at..at + |a + b|][..|a|] == (a + b)[..|a|] == a;
    assert m[at + |a|..at + |a + b|] == m[at..at + |a + b|][|a|..] == (a + b)[|a|..] == b;
  }

  lemma HasTwo(m: Message, at: nat, n: nat)
    requires n < 0x10000 && HasAt(m, at, Two(n))
    ensures at + 2 <= |m| && U16(m, at) == n
  {
    assert m[at] == m[at..at + 2][0] && m[at + 1] == m[at..at + 2][1];
  }

  lemma HasFields(m: Message, at: nat, r: Record)
    requires r.Ok() && HasAt(m, at, r.Fields())
    ensures at + ANSWER <= |m| && U16(m, at) == r.typ && U16(m, at + 2) == r.cls && U32(m, at + 4) == r.ttl
    ensures U16(m, at + 8) == |r.data|
  {
    var a, b, c, d, e := Two(r.typ), Two(r.cls), Two(r.ttl / 0x10000), Two(r.ttl % 0x10000), Two(|r.data|);
    hide Two, HasAt, U16;
    HasSplit(m, at, a + b + c + d, e);
    HasSplit(m, at, a + b + c, d);
    HasSplit(m, at, a + b, c);
    HasSplit(m, at, a, b);
    HasTwo(m, at, r.typ);
    HasTwo(m, at + 2, r.cls);
    HasTwo(m, at + 4, r.ttl / 0x10000);
    HasTwo(m, at + 6, r.ttl % 0x10000);
    HasTwo(m, at + 8, |r.data|);
  }

  lemma HasSpelled(m: Message, at: nat, w: seq<Byte>)
    requires HasAt(m, at, w)
    ensures SpelledAt(m, at, w)
  {
    forall j | 0 <= j < |w|
      ensures m[at + j] == w[j]
    {
      assert m[at..at + |w|][j] == w[j];
    }
  }

  lemma OwnerSkipped(m: Message, at: nat, o: Owner)
    requires o.Ok() && HasAt(m, at, o.Bytes())
    ensures SkipFrom(m, at) == at + |o.Bytes()|
  {
    HasSpelled(m, at, o.Bytes());
    hide SkipFrom, HasAt, SpelledAt;
    match o
    case Full(labels) => SkipRoundTrip(labels, m, at);
    case Compressed(labels, hi, lo) => SkipPointer(labels, m, at, hi, lo);
  }

  /** The first record with a wanted address. */
  function FirstAddress(records: seq<Record>, v6: bool): Outcome {
    if records == [] then NoAddress
    else if records[0].Holds(v6) then Answered(records[0].ttl, records[0].data)
    else FirstAddress(records[1..], v6)
  }

  /** The answers that a server has written are read as what they say. */
  lemma {:induction false} AnswersRead(m: Message, at: nat, records: seq<Record>, v6: bool)
    requires AllOk(records) && HasAt(m, at, Bytes(records))
    ensures Answers(m, at, |records|, v6) == FirstAddress(records, v6)
    decreases |records|
  {
    hide SkipFrom, HasAt, U16, U32, Owner.Bytes, Record.Fields;
    if records != [] {
      var r, rest := records[0], Bytes(records[1..]);
      var owner, fields := r.owner.Bytes(), r.Fields();
      HasSplit(m, at, owner + fields + r.data, rest);
      HasSplit(m, at, owner + fields, r.data);
      HasSplit(m, at, owner, fields);
      OwnerSkipped(m, at, r.owner);
      HasFields(m, at + |owner|, r);
      HasInside(m, at + |owner| + ANSWER, r.data);
      AnswersRead(m, at + |owner| + ANSWER + |r.data|, records[1..], v6);
    }
  }

  lemma HasInside(m: Message, at: nat, s: seq<Byte>)
    requires HasAt(m, at, s)
    ensures at + |s| <= |m| <= 0xFFFF && m[at..at + |s|] == s
  {
  }

  /** A response to the question for these labels and family, with these answers; further sections may follow. */
  ghost predicate IsResponse(m: Message, labels: seq<seq<Byte>>, v6: bool, records: seq<Record>)
    requires AllGood(labels) && AllOk(records)
  {
    var at := HEADER + |Wire(labels)|;
    && |m| >= HEADER + QUESTION && m[2] >= 128 && U16(m, 4) == 1 && U16(m, 6) == |records|
    && SpelledAt(m, HEADER, Wire(labels))
    && HasAt(m, at, Two(TypeOf(v6)) + Two(CLASS_IN)) && HasAt(m, at + QUESTION, Bytes(records))
  }

  /** Every response to the question, in any letter case, is read as what it says: an error, the first address of the
      wanted family with its time to live, or that there is none. */
  lemma ResponseRead(m: Message, labels: seq<seq<Byte>>, family: AddrType, records: seq<Record>)
    requires labels != [] && AllGood(labels) && AllOk(records) && IsResponse(m, labels, AsksV6(family), records)
    ensures Reading(m, Dotted(labels), family, true)
            == if m[3] % 16 != 0 then Refused else FirstAddress(records, AsksV6(family))
  {
    hide CompareFrom, Wire, Dotted, Answers, SpelledAt, HasAt, Two, U16;
    var at, v6 := HEADER + |Wire(labels)|, AsksV6(family);
    CompareRoundTrip(labels, Query(Dotted(labels)), 0, m, HEADER);
    HasSplit(m, at, Two(TypeOf(v6)), Two(CLASS_IN));
    HasTwo(m, at, TypeOf(v6));
    HasTwo(m, at + 2, CLASS_IN);
    HasInside(m, at + 2, Two(CLASS_IN));
    AnswersRead(m, at + QUESTION, records, v6);
  }

  // ---------------------------------------------------------------- what a packet was

  /** A record of the wanted type stands at `q`, behind its name. */
  predicate RecordAt(m: Message, q: nat, v6: bool, ttl: nat, address: seq<Byte>) {
    && q + ANSWER + |address| <= |m| && U16(m, q) == TypeOf(v6) && U16(m, q + 2) == CLASS_IN && U32(m, q + 4) == ttl
    && U16(m, q + 8) == |address| == LengthOf(v6) && m[q + ANSWER..q + ANSWER + |address|] == address
  }

  /** From `at` to `end` there are `k` whole records, none with a wanted address. */
  ghost predicate Passed(m: Message, at: nat, k: nat, v6: bool, end: nat)
    decreases k
  {
    if k == 0 then end == at
    else
      && at < |m| && SkipFrom(m, at) != BAD && SkipFrom(m, at) + ANSWER <= |m|
      && var q := SkipFrom(m, at);
         && !(U16(m, q) == TypeOf(v6) && U16(m, q + 2) == CLASS_IN && U16(m, q + 8) == LengthOf(v6))
         && Passed(m, q + ANSWER + U16(m, q + 8), k - 1, v6, end)
  }

  /** The record at `at` cannot be read: it is not all there, or it ends behind what 16 bits can count. */
  predicate Broken(m: Message, at: nat, v6: bool) {
    var q := SkipFrom(m, at);
    q == BAD || q + ANSWER > |m|
    || (var end := q + ANSWER + U16(m, q + 8);
        if U16(m, q) == TypeOf(v6) && U16(m, q + 2) == CLASS_IN && U16(m, q + 8) == LengthOf(v6) then end > |m| else end > 0xFFFF)
  }

  /** The answers that are read: an address stands in the first record that could hold one, there is no address if
      all records, or those up to the end of the message, hold none, and the packet is ignored if one of these is broken. */
  lemma {:induction false} AnswersAre(m: Message, at: nat, n: nat, v6: bool) returns (k: nat, end: nat)
    ensures k <= n
    ensures var r := Answers(m, at, n, v6);
      && (!r.Refused?)
      && (r.Answered? ==> && k < n && Passed(m, at, k, v6, end) && end < |m|
                          && RecordAt(m, SkipFrom(m, end), v6, r.ttl, r.address))
      && (r.NoAddress? ==> Passed(m, at, k, v6, end) && (k == n || end >= |m|))
      && (r.Ignored? ==> k < n && Passed(m, at, k, v6, end) && end < |m| && Broken(m, end, v6))
    decreases n
  {
    hide SkipFrom, U16, U32;
    k, end := 0, at;
    if n > 0 && at < |m| {
      var q := SkipFrom(m, at);
      if q != BAD && q + ANSWER <= |m| {
        var data, len := q + ANSWER, U16(m, q + 8);
        if !(U16(m, q + 2) == CLASS_IN && U16(m, q) == TypeOf(v6) && len == LengthOf(v6)) && data + len <= 0xFFFF {
          var j, e := AnswersAre(m, data + len, n - 1, v6);
          k, end := j + 1, e;
        }
      }
    }
  }

  /** A packet that is not ignored came from the server that was asked, is a response, and repeats the question: a name
      that fits, and the wanted type. It counts as an error exactly if its code says so; an address that it holds stands in
      one of its answers. */
  lemma ReadingIs(m: Message, name: seq<Byte>, family: AddrType, asked: bool)
    returns (labels: seq<seq<Byte>>, end: nat)
    requires Reading(m, name, family, asked) != Ignored
    ensures asked && |m| >= HEADER + QUESTION && m[2] >= 128 && U16(m, 4) == 1
    ensures NameAt(m, HEADER, labels) && Fits(Query(name), 0, labels)
    ensures QuestionMatches(m, NameEnd(HEADER, labels), AsksV6(family))
    ensures Reading(m, name, family, asked).Refused? <==> m[3] % 16 != 0
    ensures var r := Reading(m, name, family, asked);
      r.Answered? ==> RecordAt(m, end, AsksV6(family), r.ttl, r.address)
  {
    hide CompareFrom, SkipFrom, Answers, NameAt, Fits, U32, RecordAt, U16;
    labels := CompareFinds(Query(name), 0, m, HEADER);
    var at := CompareFrom(Query(name), 0, m, HEADER);
    var k, e := AnswersAre(m, at + QUESTION, U16(m, 6), AsksV6(family));
    end := SkipFrom(m, e);
  }

  /** A name and a question with its labels are the same exactly if their labels have the same lengths. */
  lemma FitsQuery(own: seq<seq<Byte>>, labels: seq<seq<Byte>>)
    requires own != [] && AllGood(own) && labels != [] && AllGood(labels) && Fits(Query(Dotted(own)), 0, labels)
    ensures Alike(Dotted(own), Dotted(labels)) <==> SameLengths(own, labels)
  {
    hide Dotted, Fits;
    FittingNames(Query(Dotted(own)), 0, own, labels);
  }
}
