/** Whole messages: internal/dns/header.go, question.go, record.go, the record kinds and packet.go. */
module Packets {
  import opened Wire
  import opened Names

  const HEADER_SIZE := 12
  const TYPE_A: U16 := 1
  const TYPE_NS: U16 := 2
  const TYPE_CNAME: U16 := 5
  const TYPE_SOA: U16 := 6
  const TYPE_PTR: U16 := 12
  const TYPE_AAAA: U16 := 28
  const TYPE_OPT: U16 := 41

  datatype Header = Header(id: U16, flags: U16, qd: U16, an: U16, ns: U16, ar: U16)

  datatype Question = Question(name: Text, qtype: U16, qclass: U16)

  datatype RRHeader = RRHeader(name: Text, rrClass: U16, ttl: U32)

  /** The dynamically typed RDATA field of an opaque record: nil, raw bytes, or something else. */
  datatype Payload = Absent | Raw(bytes: seq<Byte>) | Foreign

  datatype Record =
    | IPRecord(h: RRHeader, addr: seq<Byte>)
    | NameRecord(h: RRHeader, t: U16, target: Text)
    | OpaqueRecord(h: RRHeader, t: U16, data: Payload)

  datatype Packet = Packet(
    header: Header,
    questions: seq<Question>,
    answers: seq<Record>,
    authorities: seq<Record>,
    additionals: seq<Record>)

  // ---------------------------------------------------------------- printing

  /** net.IP.To4: four bytes as they are, an IPv4-mapped address shortened. */
  function To4(addr: seq<Byte>): Option<seq<Byte>> {
    if |addr| == 4 then Some(addr)
    else if |addr| == 16 && (forall i :: 0 <= i < 10 ==> addr[i] == 0) && addr[10] == 0xFF && addr[11] == 0xFF
    then Some(addr[12..])
    else None
  }

  function TypeOf(r: Record): U16 {
    match r
    case IPRecord(_, addr) => if To4(addr).Some? then TYPE_A else TYPE_AAAA
    case NameRecord(_, t, _) => t
    case OpaqueRecord(_, t, _) => t
  }

  function RDataWire(r: Record): Result<seq<Byte>> {
    match r
    case IPRecord(_, addr) =>
      if To4(addr).Some? then Ok(To4(addr).value)
      else if |addr| == 16 then Ok(addr)
      else Err
    case NameRecord(_, _, target) => Encode(target)
    case OpaqueRecord(_, _, data) =>
      match data
      case Absent => Ok([])
      case Raw(b) => Ok(b)
      case Foreign => Err
  }

  function OwnerWire(r: Record): Result<seq<Byte>> {
    if TypeOf(r) == TYPE_OPT then Ok([0]) else Encode(r.h.name)
  }

  /** TYPE, CLASS, TTL, RDLENGTH. */
  function FixedWire(t: U16, c: U16, ttl: U32, rdlen: U16): (b: seq<Byte>)
    ensures |b| == 10
  {
    PutU16(t) + PutU16(c) + PutU32(ttl) + PutU16(rdlen)
  }

  function RecordWire(r: Record): Result<seq<Byte>> {
    var rdata :- RDataWire(r);
    var owner :- OwnerWire(r);
    if |rdata| > 0xFFFF then Err
    else Ok(owner + FixedWire(TypeOf(r), r.h.rrClass, r.h.ttl, |rdata|) + rdata)
  }

  function RecordsWire(rs: seq<Record>): Result<seq<Byte>> {
    if rs == [] then Ok([])
    else
      var b :- RecordWire(rs[0]);
      var rest :- RecordsWire(rs[1..]);
      Ok(b + rest)
  }

  function QuestionWire(q: Question): Result<seq<Byte>> {
    var name :- Encode(q.name);
    Ok(name + PutU16(q.qtype) + PutU16(q.qclass))
  }

  function QuestionsWire(qs: seq<Question>): Result<seq<Byte>> {
    if qs == [] then Ok([])
    else
      var b :- QuestionWire(qs[0]);
      var rest :- QuestionsWire(qs[1..]);
      Ok(b + rest)
  }

  function HeaderWire(h: Header): (b: seq<Byte>)
    ensures |b| == HEADER_SIZE
  {
    PutU16(h.id) + PutU16(h.flags) + PutU16(h.qd) + PutU16(h.an) + PutU16(h.ns) + PutU16(h.ar)
  }

  /** Marshal writes its own section counts, whatever the header says. */
  function CountedHeader(p: Packet): Header {
    Header(p.header.id, p.header.flags,
           ClampU16(|p.questions|), ClampU16(|p.answers|), ClampU16(|p.authorities|), ClampU16(|p.additionals|))
  }

  /** The records of a message in wire order. */
  function Records(p: Packet): seq<Record> {
    p.answers + p.authorities + p.additionals
  }

  function PacketWire(p: Packet): Result<seq<Byte>> {
    var qs :- QuestionsWire(p.questions);
    var rs :- RecordsWire(Records(p));
    Ok(HeaderWire(CountedHeader(p)) + qs + rs)
  }

  // ---------------------------------------------------------------- parsing

  function HeaderAt(msg: seq<Byte>): Result<Header> {
    if |msg| < HEADER_SIZE then Err
    else Ok(Header(GetU16(msg, 0), GetU16(msg, 2), GetU16(msg, 4), GetU16(msg, 6), GetU16(msg, 8), GetU16(msg, 10)))
  }

  function QuestionAt(msg: seq<Byte>, off: nat): (r: Result<(Question, nat)>)
    ensures r.Ok? ==> off < r.value.1 <= |msg|
  {
    var (name, o) :- Decode(msg, off);
    if o + 4 > |msg| then Err
    else Ok((Question(NormalizeName(name), GetU16(msg, o), GetU16(msg, o + 2)), o + 4))
  }

  predicate IsNameType(t: U16) { t == TYPE_CNAME || t == TYPE_NS || t == TYPE_PTR }

  predicate IsAddressType(t: U16) { t == TYPE_A || t == TYPE_AAAA }

  /** parseRData and the three per-kind parsers; `off` is where RDATA starts. */
  function RDataAt(msg: seq<Byte>, off: nat, rdlen: nat, t: U16, h: RRHeader): Result<Record>
    requires off + rdlen <= |msg|
  {
    if IsAddressType(t) then
      if rdlen != 4 && rdlen != 16 then Err else Ok(IPRecord(h, msg[off..off + rdlen]))
    else if IsNameType(t) then
      var (target, o) :- Decode(msg, off);
      if o != off + rdlen then Err else Ok(NameRecord(h, t, target))
    else Ok(OpaqueRecord(h, t, Raw(msg[off..off + rdlen])))
  }

  function RecordAt(msg: seq<Byte>, off: nat): (r: Result<(Record, nat)>)
    ensures r.Ok? ==> off < r.value.1 <= |msg|
  {
    var (name, o) :- Decode(msg, off);
    if o + 10 > |msg| then Err
    else
      var rdlen := GetU16(msg, o + 8);
      if o + 10 + rdlen > |msg| then Err
      else
        var r :- RDataAt(msg, o + 10, rdlen, GetU16(msg, o), RRHeader(name, GetU16(msg, o + 2), GetU32(msg, o + 4)));
        Ok((r, o + 10 + rdlen))
  }

  function QuestionsAt(msg: seq<Byte>, off: nat, n: nat): (r: Result<(seq<Question>, nat)>)
    ensures r.Ok? ==> off <= r.value.1 && |r.value.0| == n
    ensures r.Ok? && off <= |msg| ==> r.value.1 <= |msg|
    decreases n
  {
    if n == 0 then Ok(([], off))
    else
      var (q, o) :- QuestionAt(msg, off);
      var (rest, end) :- QuestionsAt(msg, o, n - 1);
      Ok(([q] + rest, end))
  }

  function RecordsAt(msg: seq<Byte>, off: nat, n: nat): (r: Result<(seq<Record>, nat)>)
    ensures r.Ok? ==> off <= r.value.1 && |r.value.0| == n
    ensures r.Ok? && off <= |msg| ==> r.value.1 <= |msg|
    decreases n
  {
    if n == 0 then Ok(([], off))
    else
      var (r, o) :- RecordAt(msg, off);
      var (rest, end) :- RecordsAt(msg, o, n - 1);
      Ok(([r] + rest, end))
  }

  /** The packet at the front of `msg` and the offset where its last record ends. */
  function PacketAt(msg: seq<Byte>): Result<(Packet, nat)> {
    var h :- HeaderAt(msg);
    var (qs, o1) :- QuestionsAt(msg, HEADER_SIZE, h.qd);
    var (an, o2) :- RecordsAt(msg, o1, h.an);
    var (ns, o3) :- RecordsAt(msg, o2, h.ns);
    var (ar, o4) :- RecordsAt(msg, o3, h.ar);
    Ok((Packet(h, qs, an, ns, ar), o4))
  }

  function Parsed(msg: seq<Byte>): Result<Packet> {
    match PacketAt(msg)
    case Err => Err
    case Ok((p, _)) => Ok(p)
  }

  // ---------------------------------------------------------------- what survives a round trip

  /** The record kind is the one the parser picks for its type. */
  predicate KindOk(r: Record) {
    match r
    case IPRecord(_, _) => true
    case NameRecord(_, t, _) => IsNameType(t)
    case OpaqueRecord(_, t, _) => !IsNameType(t) && !IsAddressType(t)
  }

  predicate KindsOk(rs: seq<Record>) {
    forall i :: 0 <= i < |rs| ==> KindOk(rs[i])
  }

  /** Trailing dots dropped, an OPT owner dropped, a mapped address shortened, no RDATA made empty. */
  function CanonRecord(r: Record): Record {
    var h := r.h.(name := if TypeOf(r) == TYPE_OPT then [] else TrimDots(r.h.name));
    match r
    case IPRecord(_, addr) => IPRecord(h, if To4(addr).Some? then To4(addr).value else addr)
    case NameRecord(_, t, target) => NameRecord(h, t, TrimDots(target))
    case OpaqueRecord(_, t, data) => OpaqueRecord(h, t, if data.Absent? then Raw([]) else data)
  }

  function CanonRecords(rs: seq<Record>): (c: seq<Record>)
    ensures |c| == |rs|
    ensures forall i :: 0 <= i < |rs| ==> c[i] == CanonRecord(rs[i])
  {
    if rs == [] then [] else [CanonRecord(rs[0])] + CanonRecords(rs[1..])
  }

  function CanonQuestion(q: Question): Question {
    q.(name := Lower(TrimDots(q.name)))
  }

  function CanonQuestions(qs: seq<Question>): (c: seq<Question>)
    ensures |c| == |qs|
    ensures forall i :: 0 <= i < |qs| ==> c[i] == CanonQuestion(qs[i])
  {
    if qs == [] then [] else [CanonQuestion(qs[0])] + CanonQuestions(qs[1..])
  }

  /** The counts of the header are those of the sections; everything else in it stays. */
  function CanonPacket(p: Packet): Packet {
    Packet(p.header.(qd := ClampU16(|p.questions|), an := ClampU16(|p.answers|),
                     ns := ClampU16(|p.authorities|), ar := ClampU16(|p.additionals|)),
           CanonQuestions(p.questions),
           CanonRecords(p.answers), CanonRecords(p.authorities), CanonRecords(p.additionals))
  }

  predicate SectionsFit(p: Packet) {
    |p.questions| <= 0xFFFF && |p.answers| <= 0xFFFF && |p.authorities| <= 0xFFFF && |p.additionals| <= 0xFFFF
  }

  /** Marshal prints the message, and ParsePacket can recover it. */
  predicate Printable(p: Packet) {
    PacketWire(p).Ok? && KindsOk(Records(p)) && SectionsFit(p)
  }

  lemma FixedFields(msg: seq<Byte>, o: nat, t: U16, c: U16, ttl: U32, rdlen: U16)
    requires At(msg, o, FixedWire(t, c, ttl, rdlen))
    ensures GetU16(msg, o) == t && GetU16(msg, o + 2) == c && GetU32(msg, o + 4) == ttl && GetU16(msg, o + 8) == rdlen
  {
    AtAppend(msg, o, PutU16(t) + PutU16(c) + PutU32(ttl), PutU16(rdlen));
    AtAppend(msg, o, PutU16(t) + PutU16(c), PutU32(ttl));
    AtAppend(msg, o, PutU16(t), PutU16(c));
    GetPutU16(msg, o, t);
    GetPutU16(msg, o + 2, c);
    GetPutU32(msg, o + 4, ttl);
    GetPutU16(msg, o + 8, rdlen);
  }

  lemma OwnerRoundTrip(r: Record, msg: seq<Byte>, off: nat)
    requires OwnerWire(r).Ok? && At(msg, off, OwnerWire(r).value)
    ensures Decode(msg, off) == Ok((CanonRecord(r).h.name, off + |OwnerWire(r).value|))
  {
    hide Encode;
    if TypeOf(r) == TYPE_OPT {
      assert msg[off] == msg[off..off + 1][0];
    } else {
      DecodeEncode(r.h.name, msg, off);
    }
  }

  lemma RDataRoundTrip(r: Record, msg: seq<Byte>, off: nat)
    requires KindOk(r) && RDataWire(r).Ok? && At(msg, off, RDataWire(r).value)
    ensures RDataAt(msg, off, |RDataWire(r).value|, TypeOf(r), CanonRecord(r).h) == Ok(CanonRecord(r))
  {
    match r
    case IPRecord(_, addr) =>
    case NameRecord(_, t, target) => DecodeEncode(target, msg, off);
    case OpaqueRecord(_, t, data) =>
  }

  lemma CanonHeader(r: Record)
    ensures CanonRecord(r).h == RRHeader(CanonRecord(r).h.name, r.h.rrClass, r.h.ttl)
  {
  }

  lemma RecordRoundTrip(r: Record, msg: seq<Byte>, off: nat)
    requires KindOk(r) && RecordWire(r).Ok? && At(msg, off, RecordWire(r).value)
    ensures RecordAt(msg, off) == Ok((CanonRecord(r), off + |RecordWire(r).value|))
  {
    hide Decode, Encode, At, CanonRecord, RDataWire, OwnerWire, RDataAt;
    var owner, rdata := OwnerWire(r).value, RDataWire(r).value;
    var fixed := FixedWire(TypeOf(r), r.h.rrClass, r.h.ttl, |rdata|);
    AtAppend(msg, off, owner + fixed, rdata);
    AtAppend(msg, off, owner, fixed);
    OwnerRoundTrip(r, msg, off);
    FixedFields(msg, off + |owner|, TypeOf(r), r.h.rrClass, r.h.ttl, |rdata|);
    CanonHeader(r);
    RDataRoundTrip(r, msg, off + |owner| + 10);
  }

  lemma {:induction false} RecordsRoundTrip(rs: seq<Record>, msg: seq<Byte>, off: nat)
    requires KindsOk(rs) && RecordsWire(rs).Ok? && At(msg, off, RecordsWire(rs).value)
    ensures RecordsAt(msg, off, |rs|) == Ok((CanonRecords(rs), off + |RecordsWire(rs).value|))
    decreases rs
  {
    hide At, RecordWire, RecordAt, CanonRecord;
    if rs != [] {
      var b, rest := RecordWire(rs[0]).value, RecordsWire(rs[1..]).value;
      AtAppend(msg, off, b, rest);
      RecordRoundTrip(rs[0], msg, off);
      RecordsRoundTrip(rs[1..], msg, off + |b|);
    }
  }

  lemma QuestionRoundTrip(q: Question, msg: seq<Byte>, off: nat)
    requires QuestionWire(q).Ok? && At(msg, off, QuestionWire(q).value)
    ensures QuestionAt(msg, off) == Ok((CanonQuestion(q), off + |QuestionWire(q).value|))
  {
    hide Decode, Encode, At, PutU16, GetU16, TrimDots;
    var name := Encode(q.name).value;
    AtAppend(msg, off, name + PutU16(q.qtype), PutU16(q.qclass));
    AtAppend(msg, off, name, PutU16(q.qtype));
    DecodeEncode(q.name, msg, off);
    GetPutU16(msg, off + |name|, q.qtype);
    GetPutU16(msg, off + |name| + 2, q.qclass);
  }

  lemma {:induction false} QuestionsRoundTrip(qs: seq<Question>, msg: seq<Byte>, off: nat)
    requires QuestionsWire(qs).Ok? && At(msg, off, QuestionsWire(qs).value)
    ensures QuestionsAt(msg, off, |qs|) == Ok((CanonQuestions(qs), off + |QuestionsWire(qs).value|))
    decreases qs
  {
    hide At, QuestionWire, QuestionAt;
    if qs != [] {
      var b, rest := QuestionWire(qs[0]).value, QuestionsWire(qs[1..]).value;
      AtAppend(msg, off, b, rest);
      QuestionRoundTrip(qs[0], msg, off);
      QuestionsRoundTrip(qs[1..], msg, off + |b|);
    }
  }

  lemma HeaderRoundTrip(h: Header, msg: seq<Byte>)
    requires At(msg, 0, HeaderWire(h))
    ensures HeaderAt(msg) == Ok(h)
  {
    var b := PutU16(h.id) + PutU16(h.flags) + PutU16(h.qd);
    AtAppend(msg, 0, b + PutU16(h.an) + PutU16(h.ns), PutU16(h.ar));
    AtAppend(msg, 0, b + PutU16(h.an), PutU16(h.ns));
    AtAppend(msg, 0, b, PutU16(h.an));
    AtAppend(msg, 0, PutU16(h.id) + PutU16(h.flags), PutU16(h.qd));
    AtAppend(msg, 0, PutU16(h.id), PutU16(h.flags));
    GetPutU16(msg, 0, h.id);
    GetPutU16(msg, 2, h.flags);
    GetPutU16(msg, 4, h.qd);
    GetPutU16(msg, 6, h.an);
    GetPutU16(msg, 8, h.ns);
    GetPutU16(msg, 10, h.ar);
  }

  lemma {:induction false} RecordsWireAppend(a: seq<Record>, b: seq<Record>)
    ensures RecordsWire(a + b) == (if RecordsWire(a).Ok? && RecordsWire(b).Ok?
                                   then Ok(RecordsWire(a).value + RecordsWire(b).value) else Err)
    decreases a
  {
    hide RecordWire;
    if a == [] {
      assert a + b == b;
      assert RecordsWire(b).Ok? ==> [] + RecordsWire(b).value == RecordsWire(b).value;
    } else {
      assert (a + b)[1..] == a[1..] + b;
      RecordsWireAppend(a[1..], b);
      var x, y, z := RecordWire(a[0]), RecordsWire(a[1..]), RecordsWire(b);
      if x.Ok? && y.Ok? && z.Ok? {
        assert x.value + (y.value + z.value) == (x.value + y.value) + z.value;
      }
    }
  }

  /** Print then parse is the identity up to canonical form, and consumes every byte. */
  lemma PacketRoundTrip(p: Packet)
    requires Printable(p)
    ensures PacketAt(PacketWire(p).value) == Ok((CanonPacket(p), |PacketWire(p).value|))
  {
    hide RecordsAt, QuestionsAt, At, HeaderWire, RecordsWire, QuestionsWire, CanonRecords, CanonQuestions;
    hide HeaderAt, KindsOk;
    var msg := PacketWire(p).value;
    var hw, qw := HeaderWire(CountedHeader(p)), QuestionsWire(p.questions).value;
    SectionsSplit(p);
    var an, ns, ar := RecordsWire(p.answers).value, RecordsWire(p.authorities).value, RecordsWire(p.additionals).value;
    var o1 := HEADER_SIZE + |qw|;
    AtSelf(msg);
    assert msg == hw + qw + an + ns + ar;
    AtAppend(msg, 0, hw + qw + an + ns, ar);
    AtAppend(msg, 0, hw + qw + an, ns);
    AtAppend(msg, 0, hw + qw, an);
    AtAppend(msg, 0, hw, qw);
    HeaderRoundTrip(CountedHeader(p), msg);
    QuestionsRoundTrip(p.questions, msg, HEADER_SIZE);
    RecordsRoundTrip(p.answers, msg, o1);
    RecordsRoundTrip(p.authorities, msg, o1 + |an|);
    RecordsRoundTrip(p.additionals, msg, o1 + |an| + |ns|);
  }

  lemma SectionsSplit(p: Packet)
    requires RecordsWire(Records(p)).Ok? && KindsOk(Records(p))
    ensures RecordsWire(p.answers).Ok? && RecordsWire(p.authorities).Ok? && RecordsWire(p.additionals).Ok?
    ensures RecordsWire(Records(p)).value
         == RecordsWire(p.answers).value + RecordsWire(p.authorities).value + RecordsWire(p.additionals).value
    ensures KindsOk(p.answers) && KindsOk(p.authorities) && KindsOk(p.additionals)
  {
    hide RecordsWire, KindsOk;
    RecordsWireAppend(p.answers + p.authorities, p.additionals);
    RecordsWireAppend(p.answers, p.authorities);
    KindsSplit(p);
  }

  lemma KindsSplit(p: Packet)
    requires KindsOk(Records(p))
    ensures KindsOk(p.answers) && KindsOk(p.authorities) && KindsOk(p.additionals)
  {
    hide KindOk;
    var all, n, m := Records(p), |p.answers|, |p.authorities|;
    assert forall i :: 0 <= i < n ==> p.answers[i] == all[i];
    assert forall i :: 0 <= i < m ==> p.authorities[i] == all[n + i];
    assert forall i :: 0 <= i < |p.additionals| ==> p.additionals[i] == all[n + m + i];
  }

  // ---------------------------------------------------------------- kinds and types, in numbers

  /** An IPv4-mapped IPv6 address: ten zero bytes, two of ones, then the IPv4 address. */
  predicate IsMapped(addr: seq<Byte>) {
    && |addr| == 16 && addr[10] == 255 && addr[11] == 255
    && forall i :: 0 <= i < 10 ==> addr[i] == 0
  }

  /** The type and RDATA of an address: A (1) for four bytes or a mapped address, AAAA (28) for any
      other sixteen, nothing for any other length. */
  lemma AddressWire(h: RRHeader, addr: seq<Byte>)
    requires Encode(h.name).Ok?
    ensures var wire := RecordWire(IPRecord(h, addr));
            var owner, mid := Encode(h.name).value, PutU16(h.rrClass) + PutU32(h.ttl);
            && (|addr| == 4 ==> wire == Ok(owner + [0, 1] + mid + [0, 4] + addr))
            && (IsMapped(addr) ==> wire == Ok(owner + [0, 1] + mid + [0, 4] + addr[12..]))
            && (|addr| == 16 && !IsMapped(addr) ==> wire == Ok(owner + [0, 28] + mid + [0, 16] + addr))
            && (|addr| != 4 && |addr| != 16 ==> wire.Err?)
  {
    hide Encode, FixedWire;
    var owner := Encode(h.name).value;
    if |addr| == 4 {
      FixedParts(owner, 1, h, addr);
    } else if IsMapped(addr) {
      FixedParts(owner, 1, h, addr[12..]);
    } else if |addr| == 16 {
      FixedParts(owner, 28, h, addr);
    }
  }

  lemma FixedParts(owner: seq<Byte>, t: U16, h: RRHeader, rdata: seq<Byte>)
    requires t < 256 && |rdata| < 256
    ensures owner + FixedWire(t, h.rrClass, h.ttl, |rdata|) + rdata
         == owner + [0, t] + (PutU16(h.rrClass) + PutU32(h.ttl)) + [0, |rdata|] + rdata
  {
    assert PutU16(t) == [0, t] && PutU16(|rdata|) == [0, |rdata|];
  }

  /** Which kind a parsed record has, by its TYPE field: 1 and 28 are addresses of four or sixteen
      bytes; 2, 5 and 12 hold a name; all others are opaque. */
  lemma ParsedKind(msg: seq<Byte>, off: nat)
    requires RecordAt(msg, off).Ok?
    ensures var r, o := RecordAt(msg, off).value.0, Decode(msg, off).value.1;
            && o + 10 <= |msg| && r.h.rrClass == GetU16(msg, o + 2) && r.h.ttl == GetU32(msg, o + 4)
            && r.h.name == Decode(msg, off).value.0
            && var t, rdata := GetU16(msg, o), msg[o + 10..RecordAt(msg, off).value.1];
            && (r.IPRecord? <==> t == 1 || t == 28) && (r.NameRecord? <==> t == 2 || t == 5 || t == 12)
            && (r.IPRecord? ==> r.addr == rdata && (|rdata| == 4 || |rdata| == 16))
            && (r.NameRecord? ==> r.t == t && Decode(msg, o + 10) == Ok((r.target, RecordAt(msg, off).value.1)))
            && (r.OpaqueRecord? ==> r.t == t && r.data == Raw(rdata))
  {
    hide Decode, GetU16, GetU32;
  }

  /** Exactly which records Marshal prints. */
  lemma RecordPrintsIff(r: Record)
    ensures RecordWire(r).Ok? <==>
            && (TypeOf(r) == 41 || Encode(r.h.name).Ok?)
            && match r
               case IPRecord(_, addr) => |addr| == 4 || |addr| == 16
               case NameRecord(_, _, target) => Encode(target).Ok?
               case OpaqueRecord(_, _, data) => data.Absent? || (data.Raw? && |data.bytes| <= 65535)
  {
    hide Encode;
  }

  // ---------------------------------------------------------------- the code that runs

  method MarshalRecord(r: Record) returns (b: Result<seq<Byte>>)
    ensures b == RecordWire(r)
  {
    var rdata;
    match r {
      case NameRecord(_, _, target) => rdata := EncodeName(target);
      case _ => rdata := RDataWire(r);
    }
    if rdata.Err? { return Err; }
    var nameWire: Result<seq<Byte>> := Ok([0]);
    if TypeOf(r) != TYPE_OPT {
      nameWire := EncodeName(r.h.name);
    }
    if nameWire.Err? { return Err; }
    if |rdata.value| > 0xFFFF { return Err; }
    return Ok(nameWire.value + FixedWire(TypeOf(r), r.h.rrClass, r.h.ttl, |rdata.value|) + rdata.value);
  }

  /** `out` extended by what is still to be printed, when that can be printed. */
  function Onto(out: seq<Byte>, rest: Result<seq<Byte>>): Result<seq<Byte>> {
    match rest
    case Err => Err
    case Ok(b) => Ok(out + b)
  }

  lemma OntoNext(out: seq<Byte>, a: seq<Byte>, rest: Result<seq<Byte>>)
    ensures Onto(out + a, rest) == Onto(out, Onto(a, rest))
  {
    if rest.Ok? { assert (out + a) + rest.value == out + (a + rest.value); }
  }

  method AppendRecords(start: seq<Byte>, records: seq<Record>) returns (out: Result<seq<Byte>>)
    ensures out == Onto(start, RecordsWire(records))
  {
    hide RecordWire;
    var buf := start;
    assert records[0..] == records;
    for i := 0 to |records|
      invariant Onto(start, RecordsWire(records)) == Onto(buf, RecordsWire(records[i..]))
    {
      var b := MarshalRecord(records[i]);
      assert records[i..][0] == records[i] && records[i..][1..] == records[i + 1..];
      if b.Err? { return Err; }
      OntoNext(buf, b.value, RecordsWire(records[i + 1..]));
      buf := buf + b.value;
    }
    assert buf + [] == buf;
    return Ok(buf);
  }

  method AppendQuestions(start: seq<Byte>, questions: seq<Question>) returns (out: Result<seq<Byte>>)
    ensures out == Onto(start, QuestionsWire(questions))
  {
    var buf := start;
    assert questions[0..] == questions;
    for i := 0 to |questions|
      invariant Onto(start, QuestionsWire(questions)) == Onto(buf, QuestionsWire(questions[i..]))
    {
      var name := EncodeName(questions[i].name);
      assert questions[i..][0] == questions[i] && questions[i..][1..] == questions[i + 1..];
      if name.Err? { return Err; }
      var b := name.value + PutU16(questions[i].qtype) + PutU16(questions[i].qclass);
      OntoNext(buf, b, QuestionsWire(questions[i + 1..]));
      buf := buf + b;
    }
    assert buf + [] == buf;
    return Ok(buf);
  }

  method Marshal(p: Packet) returns (out: Result<seq<Byte>>)
    ensures out == PacketWire(p)
  {
    hide RecordsWire, QuestionsWire, HeaderWire, CountedHeader;
    RecordsWireAppend(p.answers + p.authorities, p.additionals);
    RecordsWireAppend(p.answers, p.authorities);
    out := AppendQuestions(HeaderWire(CountedHeader(p)), p.questions);
    if out.Err? { return; }
    out := AppendRecords(out.value, p.answers);
    if out.Err? { return; }
    out := AppendRecords(out.value, p.authorities);
    if out.Err? { return; }
    out := AppendRecords(out.value, p.additionals);
    if out.Ok? {
      var start := HeaderWire(CountedHeader(p)) + QuestionsWire(p.questions).value;
      var an, ns := RecordsWire(p.answers).value, RecordsWire(p.authorities).value;
      var ar := RecordsWire(p.additionals).value;
      assert start + an + ns + ar == start + (an + ns + ar);
    }
  }

  method ParseQuestion(msg: seq<Byte>, off: nat) returns (r: Result<(Question, nat)>)
    ensures r == QuestionAt(msg, off)
  {
    var d := DecodeName(msg, off);
    if d.Err? { return Err; }
    var (name, o) := d.value;
    if o + 4 > |msg| { return Err; }
    return Ok((Question(NormalizeName(name), GetU16(msg, o), GetU16(msg, o + 2)), o + 4));
  }

  method ParseRecord(msg: seq<Byte>, off: nat) returns (r: Result<(Record, nat)>)
    ensures r == RecordAt(msg, off)
  {
    hide Decode;
    var d := DecodeName(msg, off);
    if d.Err? { return Err; }
    var (name, o) := d.value;
    if o + 10 > |msg| { return Err; }
    var t, rdlen := GetU16(msg, o), GetU16(msg, o + 8);
    var h := RRHeader(name, GetU16(msg, o + 2), GetU32(msg, o + 4));
    o := o + 10;
    if o + rdlen > |msg| { return Err; }
    if IsNameType(t) {
      var n := DecodeName(msg, o);
      if n.Err? || n.value.1 != o + rdlen { return Err; }
      return Ok((NameRecord(h, t, n.value.0), o + rdlen));
    }
    var rec := RDataAt(msg, o, rdlen, t, h);
    if rec.Err? { return Err; }
    return Ok((rec.value, o + rdlen));
  }

  method ParseQuestions(msg: seq<Byte>, start: nat, n: nat) returns (r: Result<(seq<Question>, nat)>)
    ensures r == QuestionsAt(msg, start, n)
  {
    hide QuestionAt;
    ghost var whole := QuestionsAt(msg, start, n);
    var qs, off := [], start;
    BehindNothing(whole);
    for i := 0 to n
      invariant whole == Behind(qs, QuestionsAt(msg, off, n - i))
    {
      var q := ParseQuestion(msg, off);
      if q.Err? { return Err; }
      BehindBehind(qs, [q.value.0], QuestionsAt(msg, q.value.1, n - i - 1));
      qs, off := qs + [q.value.0], q.value.1;
    }
    assert qs + [] == qs;
    return Ok((qs, off));
  }

  method ParseRecords(msg: seq<Byte>, start: nat, n: nat) returns (r: Result<(seq<Record>, nat)>)
    ensures r == RecordsAt(msg, start, n)
  {
    hide RecordAt;
    ghost var whole := RecordsAt(msg, start, n);
    var rs, off := [], start;
    BehindNothing(whole);
    for i := 0 to n
      invariant whole == Behind(rs, RecordsAt(msg, off, n - i))
    {
      var x := ParseRecord(msg, off);
      if x.Err? { return Err; }
      BehindBehind(rs, [x.value.0], RecordsAt(msg, x.value.1, n - i - 1));
      rs, off := rs + [x.value.0], x.value.1;
    }
    assert rs + [] == rs;
    return Ok((rs, off));
  }

  method ParsePacket(msg: seq<Byte>) returns (r: Result<Packet>)
    ensures r == Parsed(msg)
  {
    hide QuestionsAt, RecordsAt;
    var h := HeaderAt(msg);
    if h.Err? { return Err; }
    var qs := ParseQuestions(msg, HEADER_SIZE, h.value.qd);
    if qs.Err? { return Err; }
    var an := ParseRecords(msg, qs.value.1, h.value.an);
    if an.Err? { return Err; }
    var ns := ParseRecords(msg, an.value.1, h.value.ns);
    if ns.Err? { return Err; }
    var ar := ParseRecords(msg, ns.value.1, h.value.ar);
    if ar.Err? { return Err; }
    return Ok(Packet(h.value, qs.value.0, an.value.0, ns.value.0, ar.value.0));
  }
}
