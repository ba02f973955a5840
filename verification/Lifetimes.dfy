/** How long a response may be cached, and what that means for the TTLs served from the cache:
    analyzeCacheDecision, findMinimumTTL and extractSOAMinimum in
    internal/resolvers/forwarding_resolver.go, with capTTL of cache.go. */
module Lifetimes {
  import opened Wire
  import opened Names
  import opened Packets
  import opened Truncation
  import opened TtlAging
  import TtlFields
  import Cache

  const MAX_INT: int := 0x7FFF_FFFF_FFFF_FFFF

  datatype Decision = Decision(ttlSeconds: nat, kind: Cache.EntryType)

  // ---------------------------------------------------------------- the least nonzero TTL

  /** `m` is the least nonzero TTL, or 0 when there is none. */
  predicate IsMinimumTTL(rs: seq<Record>, m: int) {
    && (forall i :: 0 <= i < |rs| && rs[i].h.ttl != 0 ==> 0 < m <= rs[i].h.ttl)
    && (m != 0 ==> exists i :: 0 <= i < |rs| && rs[i].h.ttl == m)
  }

  function MinimumTTL(rs: seq<Record>): (m: nat)
    ensures IsMinimumTTL(rs, m)
  {
    if rs == [] then 0
    else
      var n, last := MinimumTTL(rs[..|rs| - 1]), rs[|rs| - 1].h.ttl;
      assert forall i :: 0 <= i < |rs| - 1 ==> rs[..|rs| - 1][i] == rs[i];
      if last == 0 || (n != 0 && n <= last) then n else last
  }

  method FindMinimumTTL(answers: seq<Record>) returns (m: int)
    ensures m == MinimumTTL(answers)
    ensures IsMinimumTTL(answers, m)
  {
    var minTTL, found := MAX_INT, false;
    for i := 0 to |answers|
      invariant found ==> minTTL == MinimumTTL(answers[..i]) != 0
      invariant !found ==> minTTL == MAX_INT && MinimumTTL(answers[..i]) == 0
    {
      assert answers[..i + 1][..i] == answers[..i];
      var ttl := answers[i].h.ttl;
      if ttl == 0 { continue; }
      if ttl < minTTL {
        minTTL, found := ttl, true;
      }
    }
    assert answers[..|answers|] == answers;
    return if found then minTTL else 0;
  }

  // ---------------------------------------------------------------- SOA MINIMUM

  /** MINIMUM of one SOA record's RDATA; None means that the search goes on. */
  function MinimumField(b: seq<Byte>): Option<U32> {
    match Decode(b, 0)
    case Err => Some(0)
    case Ok(m) =>
      match Decode(b, m.1)
      case Err => Some(0)
      case Ok(r) =>
        if r.1 + 20 <= |b| then Some(GetU32(b, r.1 + 16))
        else if |b| >= 4 then Some(GetU32(b, |b| - 4))
        else None
  }

  predicate IsSOA(r: Record) {
    r.OpaqueRecord? && r.t == TYPE_SOA && r.data.Raw?
  }

  function SOAMinimum(rs: seq<Record>): U32 {
    if rs == [] then 0
    else if IsSOA(rs[0]) && MinimumField(rs[0].data.bytes).Some? then MinimumField(rs[0].data.bytes).value
    else SOAMinimum(rs[1..])
  }

  method ExtractSOAMinimum(authorities: seq<Record>) returns (m: U32)
    ensures m == SOAMinimum(authorities)
  {
    hide Decode, GetU32;
    assert authorities[0..] == authorities;
    for i := 0 to |authorities|
      invariant SOAMinimum(authorities) == SOAMinimum(authorities[i..])
    {
      var r := authorities[i];
      assert authorities[i..][0] == r && authorities[i..][1..] == authorities[i + 1..];
      if TypeOf(r) != TYPE_SOA { continue; }
      if !r.OpaqueRecord? { continue; }
      if !r.data.Raw? { continue; }
      var b := r.data.bytes;
      var mname := DecodeName(b, 0);
      if mname.Err? { return 0; }
      var rname := DecodeName(b, mname.value.1);
      if rname.Err? { return 0; }
      var off := rname.value.1;
      if off + 20 <= |b| { return GetU32(b, off + 16); }
      if |b| >= 4 { return GetU32(b, |b| - 4); }
    }
    return 0;
  }

  /** Where the five numbers of SOA RDATA start, judged by length bytes alone (section 3.3.13 of
      RFC 1035: two names, possibly compressed, and five 32-bit numbers, MINIMUM last). */
  function NumbersAt(b: seq<Byte>): nat {
    SkipName(b, SkipName(b, 0))
  }

  /** Both names decode within the RDATA, without the message around it. */
  predicate SoaNamesDecode(b: seq<Byte>) {
    Decode(b, 0).Ok? && Decode(b, SkipName(b, 0)).Ok?
  }

  /** A nonzero MINIMUM is read if and only if both names decode within the RDATA alone. */
  lemma MinimumReadIff(b: seq<Byte>)
    requires NumbersAt(b) + 20 <= |b|
    ensures MinimumField(b) == Some(if SoaNamesDecode(b) then GetU32(b, NumbersAt(b) + 16) else 0)
    ensures GetU32(b, NumbersAt(b) + 16) != 0 ==>
              (MinimumField(b) == Some(GetU32(b, NumbersAt(b) + 16)) <==> SoaNamesDecode(b))
  {
    hide Decode, SkipName, GetU32;
    if Decode(b, 0).Ok? {
      TtlFields.SkipDecoded(b, 0);
      var o := SkipName(b, 0);
      if Decode(b, o).Ok? { TtlFields.SkipDecoded(b, o); }
    }
  }

  /** When the names decode but the numbers are cut short, the last four bytes are read, if there are
      as many; otherwise the search goes on. */
  lemma MinimumFallback(b: seq<Byte>)
    requires SoaNamesDecode(b) && NumbersAt(b) + 20 > |b|
    ensures MinimumField(b) == if |b| >= 4 then Some(GetU32(b, |b| - 4)) else None
  {
    hide Decode, SkipName, GetU32;
    TtlFields.SkipDecoded(b, 0);
    TtlFields.SkipDecoded(b, SkipName(b, 0));
  }

  /** The five numbers. */
  datatype Soa = Soa(serial: U32, refresh: U32, retry: U32, expire: U32, minimum: U32)

  function NumbersWire(soa: Soa): (b: seq<Byte>)
    ensures |b| == 20
  {
    PutU32(soa.serial) + PutU32(soa.refresh) + PutU32(soa.retry) + PutU32(soa.expire) + PutU32(soa.minimum)
  }

  lemma MinimumAt(b: seq<Byte>, at: nat, soa: Soa)
    requires At(b, at, NumbersWire(soa))
    ensures at + 20 <= |b| && GetU32(b, at + 16) == soa.minimum
  {
    hide PutU32, GetU32;
    var four := PutU32(soa.serial) + PutU32(soa.refresh) + PutU32(soa.retry) + PutU32(soa.expire);
    AtAppend(b, at, four, PutU32(soa.minimum));
    GetPutU32(b, at + 16, soa.minimum);
  }

  /** SOA RDATA with uncompressed names. */
  function SoaWire(mname: Text, rname: Text, soa: Soa): seq<Byte>
    requires Encode(mname).Ok? && Encode(rname).Ok?
  {
    Encode(mname).value + Encode(rname).value + NumbersWire(soa)
  }

  /** Uncompressed names decode, so their MINIMUM is always read. */
  lemma MinimumIsRead(mname: Text, rname: Text, soa: Soa)
    requires Encode(mname).Ok? && Encode(rname).Ok?
    ensures var b := SoaWire(mname, rname, soa);
            && SoaNamesDecode(b) && NumbersAt(b) + 20 == |b|
            && GetU32(b, NumbersAt(b) + 16) == soa.minimum && MinimumField(b) == Some(soa.minimum)
  {
    hide At, Encode, Decode, SkipName, NumbersWire, GetU32, TrimDots, MinimumField;
    var b, m, r := SoaWire(mname, rname, soa), Encode(mname).value, Encode(rname).value;
    AtSelf(b);
    AtAppend(b, 0, m + r, NumbersWire(soa));
    AtAppend(b, 0, m, r);
    DecodeEncode(mname, b, 0);
    TtlFields.SkipDecoded(b, 0);
    DecodeEncode(rname, b, |m|);
    TtlFields.SkipDecoded(b, |m|);
    MinimumAt(b, |m + r|, soa);
    MinimumReadIff(b);
  }

  /** A compression pointer to offset `to`. */
  function PointerWire(to: nat): (b: seq<Byte>)
    requires to < 0x4000
    ensures |b| == 2
  {
    [0xC0 + to / 0x100, to % 0x100]
  }

  /** SOA RDATA whose names are pointers, the way servers compress them. */
  function PointerSoa(mname: nat, rname: nat, soa: Soa): (b: seq<Byte>)
    requires mname < 0x4000 && rname < 0x4000
    ensures |b| == 24
  {
    PointerWire(mname) + PointerWire(rname) + NumbersWire(soa)
  }

  /** Pointers that leave the RDATA cannot be followed there: MINIMUM is ignored, whatever it is. */
  lemma PointerSoaIgnored(mname: nat, rname: nat, soa: Soa)
    requires 24 <= mname < 0x4000 && rname < 0x4000
    ensures var b := PointerSoa(mname, rname, soa);
            && NumbersAt(b) + 20 == |b| && GetU32(b, NumbersAt(b) + 16) == soa.minimum
            && !SoaNamesDecode(b) && MinimumField(b) == Some(0)
  {
    hide NumbersWire, GetU32;
    var b := PointerSoa(mname, rname, soa);
    assert b[0] == 0xC0 + mname / 0x100 && b[1] == mname % 0x100;
    assert b[2] == 0xC0 + rname / 0x100;
    assert Pointer(b[0], b[1]) == mname;
    assert NumbersAt(b) == 4;
    AtSelf(b);
    AtAppend(b, 0, PointerWire(mname) + PointerWire(rname), NumbersWire(soa));
    MinimumAt(b, 4, soa);
  }

  predicate UsableSoa(r: Record) {
    IsSOA(r) && MinimumField(r.data.bytes).Some?
  }

  /** The first usable SOA record decides. */
  lemma {:induction false} FirstSoaDecides(rs: seq<Record>, i: nat)
    requires i < |rs| && UsableSoa(rs[i]) && forall j :: 0 <= j < i ==> !UsableSoa(rs[j])
    ensures SOAMinimum(rs) == MinimumField(rs[i].data.bytes).value
  {
    hide MinimumField;
    if i > 0 {
      FirstSoaDecides(rs[1..], i - 1);
    }
  }

  // ---------------------------------------------------------------- the decision

  const RCODE_NOERROR := 0
  const RCODE_SERVFAIL := 2
  const RCODE_NXDOMAIN := 3

  function NegativeTTL(p: Packet): nat {
    if SOAMinimum(p.authorities) == 0 then 300 else SOAMinimum(p.authorities)
  }

  function DecisionFor(p: Packet): Decision {
    var rcode := p.header.flags % 16;
    if rcode == RCODE_SERVFAIL then Decision(30, Cache.ServFail)
    else if rcode == RCODE_NXDOMAIN then Decision(NegativeTTL(p), Cache.NXDomain)
    else if rcode != RCODE_NOERROR then Decision(0, Cache.Positive)
    else if p.answers == [] then Decision(NegativeTTL(p), Cache.NoData)
    else Decision(MinimumTTL(p.answers), Cache.Positive)
  }

  function CacheDecision(resp: seq<Byte>): Decision {
    match Parsed(resp)
    case Err => Decision(0, Cache.Positive)
    case Ok(p) => DecisionFor(p)
  }

  method AnalyzeCacheDecision(resp: seq<Byte>) returns (d: Decision)
    ensures d == CacheDecision(resp)
  {
    hide PacketAt;
    var parsed := ParsePacket(resp);
    if parsed.Err? { return Decision(0, Cache.Positive); }
    var p := parsed.value;
    var rcode := p.header.flags % 16;
    if rcode == RCODE_SERVFAIL { return Decision(30, Cache.ServFail); }
    if rcode == RCODE_NXDOMAIN {
      var ttl := ExtractSOAMinimum(p.authorities);
      if ttl <= 0 { ttl := 300; }
      return Decision(ttl, Cache.NXDomain);
    }
    if rcode != RCODE_NOERROR { return Decision(0, Cache.Positive); }
    if |p.answers| == 0 {
      var ttl := ExtractSOAMinimum(p.authorities);
      if ttl <= 0 { ttl := 300; }
      return Decision(ttl, Cache.NoData);
    }
    var minTTL := FindMinimumTTL(p.answers);
    return Decision(minTTL, Cache.Positive);
  }

  predicate IsNegative(p: Packet) {
    p.header.flags % 16 == RCODE_NXDOMAIN || (p.header.flags % 16 == RCODE_NOERROR && p.answers == [])
  }

  /** The record at `i` is the first usable SOA, with its five numbers in place. */
  predicate DecidingSoa(p: Packet, i: nat) {
    && i < |p.authorities| && UsableSoa(p.authorities[i])
    && (forall j :: 0 <= j < i ==> !UsableSoa(p.authorities[j]))
    && NumbersAt(p.authorities[i].data.bytes) + 20 <= |p.authorities[i].data.bytes|
  }

  function MinimumOf(p: Packet, i: nat): U32
    requires DecidingSoa(p, i)
  {
    var b := p.authorities[i].data.bytes;
    GetU32(b, NumbersAt(b) + 16)
  }

  /** The documented rule for negative responses, MINIMUM of the SOA record or else 300 seconds,
      holds for a nonzero MINIMUM if and only if the record's names decode within its RDATA (or
      MINIMUM is 300 anyway); otherwise the response is kept for 300 seconds. */
  lemma NegativeLifetimeIff(resp: seq<Byte>, p: Packet, i: nat)
    requires Parsed(resp) == Ok(p) && IsNegative(p) && DecidingSoa(p, i)
    ensures var minimum, decodes := MinimumOf(p, i), SoaNamesDecode(p.authorities[i].data.bytes);
            var d := CacheDecision(resp);
            && d.kind == (if p.header.flags % 16 == RCODE_NXDOMAIN then Cache.NXDomain else Cache.NoData)
            && d.ttlSeconds == (if decodes && minimum != 0 then minimum else 300)
            && (minimum != 0 ==> (d.ttlSeconds == minimum <==> decodes || minimum == 300))
            && Lifetime(resp) == SECOND * (if d.ttlSeconds > 3600 then 3600 else d.ttlSeconds)
  {
    hide Parsed, MinimumField, SOAMinimum, SoaNamesDecode, NumbersAt, GetU32;
    MinimumReadIff(p.authorities[i].data.bytes);
    FirstSoaDecides(p.authorities, i);
  }

  /** A printed negative response with one SOA record. */
  predicate NegativeWith(p: Packet, h: RRHeader, rdata: seq<Byte>) {
    && Printable(p) && IsNegative(p)
    && p.authorities == [OpaqueRecord(h, 6, Raw(rdata))]
  }

  /** Every such message that Marshal prints keeps its SOA record. */
  lemma PrintedSoa(p: Packet, h: RRHeader, rdata: seq<Byte>)
    requires NegativeWith(p, h, rdata)
    ensures Parsed(PacketWire(p).value) == Ok(CanonPacket(p)) && IsNegative(CanonPacket(p))
    ensures CanonPacket(p).authorities == [CanonRecord(OpaqueRecord(h, TYPE_SOA, Raw(rdata)))]
    ensures var r := CanonRecord(OpaqueRecord(h, TYPE_SOA, Raw(rdata)));
            IsSOA(r) && r.data == Raw(rdata) && r.h.ttl == h.ttl && TypeOf(r) == TYPE_SOA
  {
    hide PacketWire, PacketAt;
    PacketRoundTrip(p);
  }

  /** The failing inputs: whatever MINIMUM says, a negative response whose SOA names point out of
      the RDATA is kept for 300 seconds. */
  lemma CompressedSoaKept300(p: Packet, h: RRHeader, mname: nat, rname: nat, soa: Soa)
    requires 24 <= mname < 0x4000 && rname < 0x4000 && NegativeWith(p, h, PointerSoa(mname, rname, soa))
    ensures DecidingSoa(CanonPacket(p), 0) && MinimumOf(CanonPacket(p), 0) == soa.minimum
    ensures CacheDecision(PacketWire(p).value).ttlSeconds == 300 && Lifetime(PacketWire(p).value) == 300 * SECOND
  {
    hide PacketWire, Parsed, PointerSoa, SoaNamesDecode, NumbersAt, MinimumField, GetU32, CanonPacket;
    hide CanonRecord, IsNegative;
    PrintedSoa(p, h, PointerSoa(mname, rname, soa));
    PointerSoaIgnored(mname, rname, soa);
    NegativeLifetimeIff(PacketWire(p).value, CanonPacket(p), 0);
  }

  /** With uncompressed names the rule holds. */
  lemma PlainSoaLifetime(p: Packet, h: RRHeader, mname: Text, rname: Text, soa: Soa)
    requires Encode(mname).Ok? && Encode(rname).Ok? && NegativeWith(p, h, SoaWire(mname, rname, soa))
    ensures CacheDecision(PacketWire(p).value).ttlSeconds == if soa.minimum == 0 then 300 else soa.minimum
    ensures Lifetime(PacketWire(p).value)
         == SECOND * (if soa.minimum == 0 then 300 else if soa.minimum > 3600 then 3600 else soa.minimum)
  {
    hide PacketWire, Parsed, SoaWire, SoaNamesDecode, NumbersAt, MinimumField, GetU32, CanonPacket;
    hide CanonRecord, Encode, IsNegative;
    PrintedSoa(p, h, SoaWire(mname, rname, soa));
    MinimumIsRead(mname, rname, soa);
    NegativeLifetimeIff(PacketWire(p).value, CanonPacket(p), 0);
  }

  /** The caching rules for printed messages, in numbers: SERVFAIL (2) for 30 seconds; NXDOMAIN (3)
      and empty answers without an SOA record for 300; answers for their least nonzero TTL, at most
      a day, and not at all if every TTL is 0; any other code not at all. */
  lemma PrintedDecision(p: Packet)
    requires Printable(p)
    ensures var rcode, msg := p.header.flags % 16, PacketWire(p).value;
            var d, life := CacheDecision(msg), Lifetime(msg);
            var plain := forall i :: 0 <= i < |p.authorities| ==> TypeOf(p.authorities[i]) != 6;
            && (rcode == 2 ==> d == Decision(30, Cache.ServFail) && life == 30 * SECOND)
            && (rcode == 3 ==> d.kind == Cache.NXDomain)
            && (rcode == 3 && plain ==> d.ttlSeconds == 300 && life == 300 * SECOND)
            && (rcode == 0 && p.answers == [] ==> d.kind == Cache.NoData)
            && (rcode == 0 && p.answers == [] && plain ==> d.ttlSeconds == 300 && life == 300 * SECOND)
            && (rcode == 0 && p.answers != [] ==>
                  && d.kind == Cache.Positive && IsMinimumTTL(p.answers, d.ttlSeconds)
                  && life == SECOND * (if d.ttlSeconds > 86400 then 86400 else d.ttlSeconds))
            && (rcode != 0 && rcode != 2 && rcode != 3 ==> d.ttlSeconds == 0 && life == 0)
  {
    hide PacketWire, PacketAt, MinimumTTL, SOAMinimum, IsMinimumTTL, CanonRecord, KindsOk, TypeOf;
    PacketRoundTrip(p);
    CanonMinimum(p.answers);
    assert IsMinimumTTL(p.answers, MinimumTTL(p.answers));
    if forall i :: 0 <= i < |p.authorities| ==> TypeOf(p.authorities[i]) != 6 {
      NoSoa(p.authorities);
    }
  }

  lemma NoSoa(rs: seq<Record>)
    requires forall i :: 0 <= i < |rs| ==> TypeOf(rs[i]) != 6
    ensures SOAMinimum(CanonRecords(rs)) == 0
  {
    hide CanonRecord, TypeOf;
    var c := CanonRecords(rs);
    forall i | 0 <= i < |c| ensures !IsSOA(c[i]) {
      CanonKeeps(rs[i]);
      SoaType(c[i]);
    }
    NoneDecides(c);
  }

  lemma SoaType(r: Record)
    ensures IsSOA(r) ==> TypeOf(r) == 6
  {
  }

  lemma {:induction false} NoneDecides(rs: seq<Record>)
    requires forall i :: 0 <= i < |rs| ==> !IsSOA(rs[i])
    ensures SOAMinimum(rs) == 0
  {
    if rs != [] { NoneDecides(rs[1..]); }
  }

  // ---------------------------------------------------------------- TTLs served from the cache

  /** How long storeInCache keeps a response, in nanoseconds; 0 when it is not stored. */
  function Lifetime(resp: seq<Byte>): int {
    var d := CacheDecision(resp);
    Cache.CapTTL(d.ttlSeconds * SECOND, d.kind, true)
  }

  /** A positive entry never outlives an answer with a nonzero TTL. */
  lemma PositiveLifetime(resp: seq<Byte>, p: Packet, i: nat)
    requires Parsed(resp) == Ok(p) && CacheDecision(resp).kind.Positive? && Lifetime(resp) > 0
    requires i < |p.answers| && p.answers[i].h.ttl != 0
    ensures Lifetime(resp) <= p.answers[i].h.ttl * SECOND
  {
    hide Parsed, SOAMinimum;
    assert IsMinimumTTL(p.answers, MinimumTTL(p.answers));
  }

  /** The documented rule, 1 once the age reaches the TTL, against the uint32 subtraction. */
  lemma DocumentedAgingIff(ttl: U32, s: U32)
    ensures AgedTTL(ttl, s) == (if s >= ttl then 1 else ttl - s)
        <==> ttl >= s || (ttl == 0 && s == 0xFFFF_FFFF)
  {
    if ttl < s {
      assert (ttl - s) % 0x1_0000_0000 == ttl - s + 0x1_0000_0000;
    }
  }

  /** A zero-TTL record is served with a TTL close to 2^32: the failing family of the rule above. */
  lemma ZeroTTLWraps(s: U32)
    requires s > 0
    ensures AgedTTL(0, s) == 0x1_0000_0000 - s
  {
    assert (0 - s) % 0x1_0000_0000 == 0x1_0000_0000 - s;
  }

  lemma NoWrap(ttl: U32, age: nat, lifetime: int)
    requires age < lifetime <= ttl * SECOND
    ensures WholeSeconds(age) < ttl
    ensures AgedTTL(ttl, WholeSeconds(age)) == ttl - WholeSeconds(age)
  {
    assert age / SECOND < ttl;
    assert (ttl - WholeSeconds(age)) % 0x1_0000_0000 == ttl - WholeSeconds(age);
  }

  /** The whole seconds that an entry of this age is aged by. */
  function AgeSeconds(age: int): nat { if age < 0 then 0 else age / SECOND }

  /** What a record shows after `s` seconds in the cache. */
  function ShownTTL(ttl: U32, s: nat): int {
    if s == 0 || ttl > s then ttl - s else if ttl == s then 1 else ttl + 0x1_0000_0000 - s
  }

  /** A record shows more than it was stored with exactly if it is older than its TTL. */
  lemma ShownIff(ttl: U32, s: nat)
    requires s < 0x1_0000_0000
    ensures s > 0 ==> AgedTTL(ttl, s) == ShownTTL(ttl, s)
    ensures ShownTTL(ttl, s) > ttl <==> ttl < s
  {
    if ttl >= s {
      assert (ttl - s) % 0x1_0000_0000 == ttl - s;
    } else {
      assert (ttl - s) % 0x1_0000_0000 == ttl - s + 0x1_0000_0000;
    }
  }

  /** While an entry of any type lives, the bytes served for it parse, and every record of every
      section shows ShownTTL. */
  lemma HitTTLs(resp: seq<Byte>, p: Packet, end: nat, age: int, k: nat)
    requires PacketAt(resp) == Ok((p, end)) && |resp| >= HEADER_SIZE && TtlFields.NamesClear(resp)
    requires age < Lifetime(resp) && k < |Records(p)| && TypeOf(Records(p)[k]) != TYPE_OPT
    ensures Parsed(Aged(resp, age)).Ok?
    ensures var served := Parsed(Aged(resp, age)).value;
            && |served.answers| == |p.answers| && |served.authorities| == |p.authorities|
            && |Records(served)| == |Records(p)|
            && Records(served)[k].h.ttl == ShownTTL(Records(p)[k].h.ttl, AgeSeconds(age))
  {
    hide PacketAt, TtlFields.NamesClear, Aged, AgedTTL, ShownTTL, CacheDecision, Lifetime, TypeOf, WholeSeconds;
    if age < SECOND {
      YoungUnchanged(resp, age);
      assert ShownTTL(Records(p)[k].h.ttl, 0) == Records(p)[k].h.ttl by { ShownYoung(Records(p)[k].h.ttl); }
    } else {
      AgeBelowCap(resp, age);
      TtlFields.AgingParses(resp, p, end, age);
      ShownIff(Records(p)[k].h.ttl, WholeSeconds(age));
    }
  }

  lemma ShownYoung(ttl: U32)
    ensures ShownTTL(ttl, 0) == ttl
  {
  }

  lemma YoungUnchanged(v: seq<Byte>, age: int)
    requires age < SECOND
    ensures Aged(v, age) == v
  {
  }

  /** Positive hits never wrap: while the entry lives, every answer with a nonzero TTL shows exactly
      its stored TTL minus the whole seconds of age, at least 1. */
  lemma PositiveHitTTLs(resp: seq<Byte>, p: Packet, end: nat, age: int, i: nat)
    requires PacketAt(resp) == Ok((p, end)) && |resp| >= HEADER_SIZE && TtlFields.NamesClear(resp)
    requires CacheDecision(resp).kind.Positive? && age < Lifetime(resp)
    requires i < |p.answers| && p.answers[i].h.ttl != 0 && TypeOf(p.answers[i]) != TYPE_OPT
    ensures Parsed(Aged(resp, age)).Ok?
    ensures var served := Parsed(Aged(resp, age)).value;
            && |served.answers| == |p.answers|
            && served.answers[i].h.ttl == p.answers[i].h.ttl - AgeSeconds(age) >= 1
  {
    hide PacketAt, TtlFields.NamesClear, Aged, CacheDecision, TypeOf, Lifetime;
    HitTTLs(resp, p, end, age, i);
    PositiveShown(resp, p, age, i);
  }

  lemma PositiveShown(resp: seq<Byte>, p: Packet, age: int, i: nat)
    requires Parsed(resp) == Ok(p) && CacheDecision(resp).kind.Positive? && age < Lifetime(resp)
    requires i < |p.answers| && p.answers[i].h.ttl != 0
    ensures ShownTTL(p.answers[i].h.ttl, AgeSeconds(age)) == p.answers[i].h.ttl - AgeSeconds(age) >= 1
  {
    hide Parsed, CacheDecision, Lifetime;
    if age >= SECOND {
      PositiveLifetime(resp, p, i);
      NoWrap(p.answers[i].h.ttl, age, Lifetime(resp));
      AgeBelowCap(resp, age);
    }
  }

  lemma AgeBelowCap(resp: seq<Byte>, age: int)
    requires SECOND <= age < Lifetime(resp)
    ensures WholeSeconds(age) == age / SECOND > 0
  {
    hide CacheDecision;
    assert age < Cache.MAX_TTL;
    WholeSecondsBelow(age);
  }

  lemma WholeSecondsBelow(age: int)
    requires SECOND <= age < Cache.MAX_TTL
    ensures WholeSeconds(age) == age / SECOND > 0
  {
    assert 0 < age / SECOND < 0x1_0000_0000;
  }

  // ---------------------------------------------------------------- messages that are served wrapped

  lemma {:induction false} CanonMinimum(rs: seq<Record>)
    ensures MinimumTTL(CanonRecords(rs)) == MinimumTTL(rs)
  {
    hide CanonRecord;
    var c := CanonRecords(rs);
    if rs != [] {
      var front := rs[..|rs| - 1];
      CanonMinimum(front);
      assert c[..|rs| - 1] == CanonRecords(front);
      CanonKeeps(rs[|rs| - 1]);
    }
  }

  lemma CanonKeeps(r: Record)
    ensures CanonRecord(r).h.ttl == r.h.ttl
    ensures TypeOf(CanonRecord(r)) == TypeOf(r)
  {
    if r.IPRecord? && To4(r.addr).Some? {
      assert |To4(r.addr).value| == 4;
    }
  }

  /** Every printed answer with TTL 0 beside one that makes the response cacheable is served with a
      TTL near 2^32, for as long as the entry lives. */
  lemma ZeroTTLServed(p: Packet, i: nat, age: int)
    requires Printable(p) && p.header.flags % 16 == RCODE_NOERROR
    requires i < |p.answers| && p.answers[i].h.ttl == 0 && TypeOf(p.answers[i]) != TYPE_OPT
    requires SECOND <= age < MinimumTTL(p.answers) * SECOND && age < Cache.MAX_TTL
    ensures var msg := PacketWire(p).value;
            && CacheDecision(msg).kind.Positive? && age < Lifetime(msg) && Parsed(Aged(msg, age)).Ok?
            && i < |Parsed(Aged(msg, age)).value.answers|
            && Parsed(Aged(msg, age)).value.answers[i].h.ttl == 0x1_0000_0000 - age / SECOND
  {
    hide PacketAt, PacketWire, TtlFields.NamesClear, Aged, TypeOf, CanonRecord, MinimumTTL, SOAMinimum, KindsOk;
    var msg, q := PacketWire(p).value, CanonPacket(p);
    PacketRoundTrip(p);
    TtlFields.PrintedClear(p);
    CanonMinimum(p.answers);
    CanonKeeps(p.answers[i]);
    assert Records(q)[i] == CanonRecord(p.answers[i]);
    HitTTLs(msg, q, |msg|, age, i);
  }

  /** A printed negative response whose SOA record has a TTL below its MINIMUM: from the moment the
      record is older than its TTL it is served near 2^32, until the entry expires. */
  lemma SoaOutlived(p: Packet, h: RRHeader, mname: Text, rname: Text, soa: Soa, age: int)
    requires Encode(mname).Ok? && Encode(rname).Ok? && NegativeWith(p, h, SoaWire(mname, rname, soa))
    requires (h.ttl + 1) * SECOND <= age < soa.minimum * SECOND && age < Cache.MAX_NEGATIVE_TTL
    ensures var msg := PacketWire(p).value;
            && age < Lifetime(msg) && Parsed(Aged(msg, age)).Ok?
            && |Parsed(Aged(msg, age)).value.authorities| == 1
            && Parsed(Aged(msg, age)).value.authorities[0].h.ttl == h.ttl + 0x1_0000_0000 - age / SECOND
  {
    hide PacketAt, PacketWire, TtlFields.NamesClear, Aged, TypeOf, CanonRecord, CanonRecords, SoaWire, Encode, KindsOk;
    var msg, q := PacketWire(p).value, CanonPacket(p);
    PlainSoaLifetime(p, h, mname, rname, soa);
    PrintedSoa(p, h, SoaWire(mname, rname, soa));
    PacketRoundTrip(p);
    TtlFields.PrintedClear(p);
    assert Records(q)[|q.answers|] == q.authorities[0];
    HitTTLs(msg, q, |msg|, age, |q.answers|);
  }
}
