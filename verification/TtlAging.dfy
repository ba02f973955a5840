/** adjustTTLs in internal/resolvers/forwarding_resolver.go: aging the TTLs of a cached message in
    place, on its wire form. */
module TtlAging {
  import opened Wire
  import opened Names
  import opened Packets

  /** max(1, ttl - s) with the subtraction done in uint32. */
  function AgedTTL(ttl: U32, s: U32): (t: U32)
    ensures t >= 1
  {
    var d: int := (ttl - s) % 0x1_0000_0000;
    if d < 1 then 1 else d
  }

  function WholeSeconds(age: nat): U32 {
    (age / SECOND) % 0x1_0000_0000
  }

  function SkipQuestions(b: seq<Byte>, off: nat, n: nat): Result<nat>
    decreases n
  {
    if n == 0 then Ok(off)
    else
      var (_, o) :- Decode(b, off);
      if o + 4 > |b| then Err else SkipQuestions(b, o + 4, n - 1)
  }

  /** One record's fixed part starts at `o`; an OPT record's TTL field is no TTL. */
  function AgeRecord(b: seq<Byte>, o: nat, s: U32): (r: seq<Byte>)
    requires o + 10 <= |b|
    ensures |r| == |b|
  {
    if GetU16(b, o) == TYPE_OPT then b else Splice(b, o + 4, PutU32(AgedTTL(GetU32(b, o + 4), s)))
  }

  function AgeRecords(b: seq<Byte>, off: nat, n: nat, s: U32): (r: Result<seq<Byte>>)
    ensures r.Ok? ==> |r.value| == |b|
    decreases n
  {
    if n == 0 then Ok(b)
    else
      var (_, o) :- Decode(b, off);
      if o + 10 > |b| then Err
      else
        var b' := AgeRecord(b, o, s);
        var next := o + 10 + GetU16(b', o + 8);
        if next > |b| then Err else AgeRecords(b', next, n - 1, s)
  }

  function RecordCount(b: seq<Byte>): nat
    requires |b| >= HEADER_SIZE
  {
    GetU16(b, 6) + GetU16(b, 8) + GetU16(b, 10)
  }

  /** The walk over a whole message; it gives up and changes nothing when a name does not decode. */
  function AgeMessage(b: seq<Byte>, s: U32): (r: Result<seq<Byte>>)
    requires |b| >= HEADER_SIZE
    ensures r.Ok? ==> |r.value| == |b|
  {
    var off :- SkipQuestions(b, HEADER_SIZE, GetU16(b, 4));
    AgeRecords(b, off, RecordCount(b), s)
  }

  function Aged(resp: seq<Byte>, age: int): (r: seq<Byte>)
    ensures |r| == |resp|
  {
    if |resp| < HEADER_SIZE || age <= 0 || WholeSeconds(age) == 0 then resp
    else
      match AgeMessage(resp, WholeSeconds(age))
      case Err => resp
      case Ok(b) => b
  }

  method AdjustTTLs(respBytes: seq<Byte>, age: int) returns (r: seq<Byte>)
    ensures r == Aged(respBytes, age)
  {
    hide Decode, AgeRecord;
    if |respBytes| < HEADER_SIZE || age <= 0 { return respBytes; }
    var ageSeconds := WholeSeconds(age);
    if ageSeconds == 0 { return respBytes; }
    var adjusted := new Byte[|respBytes|](i requires 0 <= i < |respBytes| => respBytes[i]);
    assert adjusted[..] == respBytes;
    var qdcount := GetU16(adjusted[..], 4);
    var totalRecords := RecordCount(adjusted[..]);
    var off: nat := HEADER_SIZE;
    ghost var questions := SkipQuestions(respBytes, HEADER_SIZE, qdcount);
    for i := 0 to qdcount
      invariant adjusted[..] == respBytes
      invariant questions == SkipQuestions(respBytes, off, qdcount - i)
    {
      var d := DecodeName(adjusted[..], off);
      if d.Err? || d.value.1 + 4 > adjusted.Length { return respBytes; }
      off := d.value.1 + 4;
    }
    ghost var whole := AgeRecords(respBytes, off, totalRecords, ageSeconds);
    for i := 0 to totalRecords
      invariant whole == AgeRecords(adjusted[..], off, totalRecords - i, ageSeconds)
    {
      var d := DecodeName(adjusted[..], off);
      if d.Err? || d.value.1 + 10 > adjusted.Length { return respBytes; }
      off := d.value.1;
      AgeInPlace(adjusted, off, ageSeconds);
      off := off + 8;
      if off + 2 > adjusted.Length { return respBytes; }
      var rdlen := GetU16(adjusted[..], off);
      off := off + 2;
      if off + rdlen > adjusted.Length { return respBytes; }
      off := off + rdlen;
    }
    return adjusted[..];
  }

  /** The edit of one TTL field in the buffer. */
  method AgeInPlace(adjusted: array<Byte>, off: nat, ageSeconds: U32)
    requires off + 10 <= adjusted.Length
    modifies adjusted
    ensures adjusted[..] == AgeRecord(old(adjusted[..]), off, ageSeconds)
  {
    var recordType := GetU16(adjusted[..], off);
    if recordType != TYPE_OPT {
      var newTTL := PutU32(AgedTTL(GetU32(adjusted[..], off + 4), ageSeconds));
      ghost var before := adjusted[..];
      adjusted[off + 4] := newTTL[0];
      adjusted[off + 5] := newTTL[1];
      adjusted[off + 6] := newTTL[2];
      adjusted[off + 7] := newTTL[3];
      assert adjusted[..] == Splice(before, off + 4, newTTL);
    }
  }

  // ---------------------------------------------------------------- on printed messages

  function AgedRecord(r: Record, s: U32): Record {
    if TypeOf(r) == TYPE_OPT then r else r.(h := r.h.(ttl := AgedTTL(r.h.ttl, s)))
  }

  function AgedRecords(rs: seq<Record>, s: U32): (a: seq<Record>)
    ensures |a| == |rs|
    ensures forall i :: 0 <= i < |rs| ==> a[i] == AgedRecord(rs[i], s)
  {
    if rs == [] then [] else [AgedRecord(rs[0], s)] + AgedRecords(rs[1..], s)
  }

  /** Every TTL that is one is aged; nothing else changes. */
  function AgedPacket(p: Packet, s: U32): Packet {
    p.(answers := AgedRecords(p.answers, s),
       authorities := AgedRecords(p.authorities, s),
       additionals := AgedRecords(p.additionals, s))
  }

  lemma AgedWire(r: Record, s: U32)
    requires RecordWire(r).Ok?
    ensures TypeOf(AgedRecord(r, s)) == TypeOf(r)
    ensures OwnerWire(AgedRecord(r, s)) == OwnerWire(r) && RDataWire(AgedRecord(r, s)) == RDataWire(r)
    ensures RecordWire(AgedRecord(r, s)).Ok?
    ensures |RecordWire(AgedRecord(r, s)).value| == |RecordWire(r).value|
  {
  }

  lemma SpliceSelf(msg: seq<Byte>, at: nat, piece: seq<Byte>)
    requires At(msg, at, piece)
    ensures Splice(msg, at, piece) == msg
  {
  }

  lemma SpliceSplice(msg: seq<Byte>, at: nat, a: seq<Byte>, b: seq<Byte>)
    requires at + |a| + |b| <= |msg|
    ensures Splice(Splice(msg, at, a), at + |a|, b) == Splice(msg, at, a + b)
  {
  }

  /** Overwriting a whole piece with one that differs in its middle only overwrites the middle. */
  lemma SpliceMiddle(msg: seq<Byte>, at: nat, pre: seq<Byte>, x: seq<Byte>, y: seq<Byte>, post: seq<Byte>)
    requires |x| == |y| && At(msg, at, pre + x + post)
    ensures Splice(msg, at, pre + y + post) == Splice(msg, at + |pre|, y)
  {
    AtAppend(msg, at, pre + x, post);
    AtAppend(msg, at, pre, x);
  }

  /** A record's wire form around its TTL. */
  lemma WireAround(owner: seq<Byte>, t: U16, c: U16, ttl: U32, rdata: seq<Byte>)
    requires |rdata| <= 0xFFFF
    ensures owner + FixedWire(t, c, ttl, |rdata|) + rdata
         == (owner + PutU16(t) + PutU16(c)) + PutU32(ttl) + (PutU16(|rdata|) + rdata)
  {
    hide PutU16, PutU32;
  }

  /** Printed record `r` stands at `off`: where its parts are. */
  lemma RecordParts(r: Record, msg: seq<Byte>, off: nat)
    requires RecordWire(r).Ok? && At(msg, off, RecordWire(r).value)
    ensures var o := off + |OwnerWire(r).value|;
            && Decode(msg, off) == Ok((CanonRecord(r).h.name, o))
            && o + 10 <= |msg|
            && GetU16(msg, o) == TypeOf(r) && GetU32(msg, o + 4) == r.h.ttl
            && o + 10 + GetU16(msg, o + 8) == off + |RecordWire(r).value|
  {
    hide Decode, Encode, At, CanonRecord, OwnerWire, RDataWire, GetU16, GetU32, TypeOf;
    var owner, rdata := OwnerWire(r).value, RDataWire(r).value;
    var fixed := FixedWire(TypeOf(r), r.h.rrClass, r.h.ttl, |rdata|);
    AtAppend(msg, off, owner + fixed, rdata);
    AtAppend(msg, off, owner, fixed);
    OwnerRoundTrip(r, msg, off);
    FixedFields(msg, off + |owner|, TypeOf(r), r.h.rrClass, r.h.ttl, |rdata|);
  }

  lemma AgedInPlace(r: Record, msg: seq<Byte>, off: nat, s: U32)
    requires RecordWire(r).Ok? && At(msg, off, RecordWire(r).value)
    requires TypeOf(r) != TYPE_OPT
    ensures RecordWire(AgedRecord(r, s)).Ok?
    ensures |RecordWire(AgedRecord(r, s)).value| == |RecordWire(r).value|
    ensures off + |OwnerWire(r).value| + 8 <= |msg|
    ensures Splice(msg, off, RecordWire(AgedRecord(r, s)).value)
         == Splice(msg, off + |OwnerWire(r).value| + 4, PutU32(AgedTTL(r.h.ttl, s)))
  {
    hide At, OwnerWire, RDataWire, AgedRecord, Splice, AgedTTL, TypeOf, PutU16, PutU32, FixedWire;
    AgedWire(r, s);
    AgedHeader(r, s);
    var owner, rdata := OwnerWire(r).value, RDataWire(r).value;
    var t, c, ttl, ttl' := TypeOf(r), r.h.rrClass, r.h.ttl, AgedTTL(r.h.ttl, s);
    WireAround(owner, t, c, ttl, rdata);
    WireAround(owner, t, c, ttl', rdata);
    var pre, post := owner + PutU16(t) + PutU16(c), PutU16(|rdata|) + rdata;
    AtAppend(msg, off, pre + PutU32(ttl), post);
    SpliceMiddle(msg, off, pre, PutU32(ttl), PutU32(ttl'), post);
  }

  /** Aging one printed record in place prints the aged record there. */
  lemma AgeOne(r: Record, msg: seq<Byte>, off: nat, s: U32)
    requires RecordWire(r).Ok? && At(msg, off, RecordWire(r).value)
    ensures RecordWire(AgedRecord(r, s)).Ok?
    ensures |RecordWire(AgedRecord(r, s)).value| == |RecordWire(r).value|
    ensures var o := off + |OwnerWire(r).value|;
            && Decode(msg, off) == Ok((CanonRecord(r).h.name, o))
            && o + 10 <= |msg|
            && AgeRecord(msg, o, s) == Splice(msg, off, RecordWire(AgedRecord(r, s)).value)
            && o + 10 + GetU16(AgeRecord(msg, o, s), o + 8) == off + |RecordWire(r).value|
  {
    hide Decode, At, CanonRecord, OwnerWire, RecordWire, AgedRecord, PutU16, PutU32, GetU32, AgedTTL, TypeOf;
    RecordParts(r, msg, off);
    AgedHeader(r, s);
    if TypeOf(r) == TYPE_OPT {
      SpliceSelf(msg, off, RecordWire(r).value);
    } else {
      AgedInPlace(r, msg, off, s);
    }
  }

  lemma AgedHeader(r: Record, s: U32)
    ensures AgedRecord(r, s).h == r.h.(ttl := if TypeOf(r) == TYPE_OPT then r.h.ttl else AgedTTL(r.h.ttl, s))
    ensures TypeOf(r) == TYPE_OPT ==> AgedRecord(r, s) == r
  {
  }

  lemma {:induction false} AgeMany(rs: seq<Record>, msg: seq<Byte>, off: nat, s: U32)
    requires RecordsWire(rs).Ok? && At(msg, off, RecordsWire(rs).value)
    ensures RecordsWire(AgedRecords(rs, s)).Ok?
    ensures |RecordsWire(AgedRecords(rs, s)).value| == |RecordsWire(rs).value|
    ensures AgeRecords(msg, off, |rs|, s) == Ok(Splice(msg, off, RecordsWire(AgedRecords(rs, s)).value))
    decreases rs
  {
    hide At, RecordWire, AgedRecord, Decode, AgeRecord, Splice, GetU16, OwnerWire;
    if rs == [] {
      AtNothing(msg, off);
    } else {
      var w, rest := RecordWire(rs[0]).value, RecordsWire(rs[1..]).value;
      AtAppend(msg, off, w, rest);
      AgeOne(rs[0], msg, off, s);
      var w' := RecordWire(AgedRecord(rs[0], s)).value;
      var msg' := Splice(msg, off, w');
      AtAfterSplice(msg, off, w', rest);
      AgeMany(rs[1..], msg', off + |w|, s);
      assert AgedRecords(rs, s)[1..] == AgedRecords(rs[1..], s);
      SpliceSplice(msg, off, w', RecordsWire(AgedRecords(rs[1..], s)).value);
    }
  }

  lemma AtNothing(msg: seq<Byte>, off: nat)
    requires At(msg, off, [])
    ensures off <= |msg| && Splice(msg, off, []) == msg
  {
  }

  lemma AtAfterSplice(msg: seq<Byte>, off: nat, w: seq<Byte>, rest: seq<Byte>)
    requires off + |w| <= |msg| && At(msg, off + |w|, rest)
    ensures At(Splice(msg, off, w), off + |w|, rest)
  {
    var m := Splice(msg, off, w);
    assert m[off + |w|..] == msg[off + |w|..];
    assert m[off + |w|..off + |w| + |rest|] == m[off + |w|..][..|rest|];
  }

  lemma {:induction false} SkipQuestionsAgrees(msg: seq<Byte>, off: nat, n: nat)
    requires QuestionsAt(msg, off, n).Ok?
    ensures SkipQuestions(msg, off, n) == Ok(QuestionsAt(msg, off, n).value.1)
    decreases n
  {
    hide Decode, NormalizeName, GetU16;
    if n > 0 {
      SkipQuestionsAgrees(msg, QuestionAt(msg, off).value.1, n - 1);
    }
  }

  lemma {:induction false} AgedRecordsAppend(a: seq<Record>, b: seq<Record>, s: U32)
    ensures AgedRecords(a + b, s) == AgedRecords(a, s) + AgedRecords(b, s)
  {
  }

  /** The in-place walk refines parse, map, print: on every printed message, aging the bytes
      prints the message with its TTLs aged. */
  lemma AgingCommutes(p: Packet, age: int)
    requires PacketWire(p).Ok? && SectionsFit(p) && age > 0 && WholeSeconds(age) > 0
    ensures PacketWire(AgedPacket(p, WholeSeconds(age))) == Ok(Aged(PacketWire(p).value, age))
  {
    hide At, RecordsWire, QuestionsWire, HeaderWire, AgeRecords, SkipQuestions, QuestionsAt, AgedRecords;
    hide CanonQuestions, WholeSeconds, Splice;
    var s := WholeSeconds(age);
    var msg := PacketWire(p).value;
    var hw, qw, rw := HeaderWire(CountedHeader(p)), QuestionsWire(p.questions).value, RecordsWire(Records(p)).value;
    AtSelf(msg);
    assert msg == hw + qw + rw;
    AtAppend(msg, 0, hw + qw, rw);
    AtAppend(msg, 0, hw, qw);
    HeaderRoundTrip(CountedHeader(p), msg);
    QuestionsRoundTrip(p.questions, msg, HEADER_SIZE);
    SkipQuestionsAgrees(msg, HEADER_SIZE, |p.questions|);
    AgeMany(Records(p), msg, HEADER_SIZE + |qw|, s);
    AgedRecordsAppend(p.answers + p.authorities, p.additionals, s);
    AgedRecordsAppend(p.answers, p.authorities, s);
    assert Records(AgedPacket(p, s)) == AgedRecords(Records(p), s);
    assert CountedHeader(AgedPacket(p, s)) == CountedHeader(p);
    SpliceTail(hw + qw, rw, RecordsWire(AgedRecords(Records(p), s)).value);
  }

  lemma SpliceTail(a: seq<Byte>, x: seq<Byte>, y: seq<Byte>)
    requires |x| == |y|
    ensures Splice(a + x, |a|, y) == a + y
  {
    assert (a + x)[..|a|] == a;
  }
}
