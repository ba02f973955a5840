/** Byte-level edits of printed messages: PatchTransactionID in internal/resolvers/types.go,
    AddEDNSToRequestBytes in internal/dns/edns.go and prepareQueryBytes in
    internal/resolvers/forwarding_resolver.go. */
module Rewrites {
  import opened Wire
  import opened Packets
  import opened Edns

  // ---------------------------------------------------------------- transaction IDs

  function Patched(msg: seq<Byte>, txid: U16): (out: seq<Byte>)
    ensures |out| == |msg|
    ensures forall i :: 2 <= i < |msg| ==> out[i] == msg[i]
    ensures |msg| >= 2 ==> GetU16(out, 0) == txid
  {
    if |msg| < 2 then msg else PutU16(txid) + msg[2..]
  }

  method PatchTransactionID(msg: seq<Byte>, txid: U16) returns (r: seq<Byte>)
    ensures r == Patched(msg, txid)
  {
    if |msg| < 2 { return msg; }
    if msg[0] == txid / 0x100 && msg[1] == txid % 0x100 { return msg; }
    var out := new Byte[|msg|](i requires 0 <= i < |msg| => msg[i]);
    out[0] := txid / 0x100;
    out[1] := txid % 0x100;
    return out[..];
  }

  /** Patching the bytes of a printed message prints the message with that ID. */
  lemma PatchCommutes(p: Packet, txid: U16)
    requires PacketWire(p).Ok?
    ensures PacketWire(p.(header := p.header.(id := txid))) == Ok(Patched(PacketWire(p).value, txid))
  {
    hide QuestionsWire, RecordsWire, PutU16;
    var h := CountedHeader(p);
    var h' := h.(id := txid);
    var body := QuestionsWire(p.questions).value + RecordsWire(Records(p)).value;
    var p' := p.(header := p.header.(id := txid));
    assert Records(p') == Records(p);
    HeaderTail(h);
    HeaderTail(h');
    assert PacketWire(p).value == HeaderWire(h) + body;
    assert PacketWire(p').value == HeaderWire(h') + body;
    assert (HeaderWire(h) + body)[2..] == HeaderWire(h)[2..] + body;
    assert HeaderWire(h') == PutU16(txid) + HeaderWire(h')[2..];
    assert HeaderWire(h') + body == PutU16(txid) + (HeaderWire(h')[2..] + body);
  }

  lemma HeaderTail(h: Header)
    ensures HeaderWire(h)[..2] == PutU16(h.id)
    ensures HeaderWire(h)[2..]
         == PutU16(h.flags) + PutU16(h.qd) + PutU16(h.an) + PutU16(h.ns) + PutU16(h.ar)
    ensures HeaderWire(h)[..10]
         == PutU16(h.id) + PutU16(h.flags) + PutU16(h.qd) + PutU16(h.an) + PutU16(h.ns)
    ensures HeaderWire(h)[10..] == PutU16(h.ar)
  {
  }

  /** Only the last patch counts: a cached or shared response can carry any placeholder. */
  lemma PatchTwice(msg: seq<Byte>, a: U16, b: U16)
    ensures Patched(Patched(msg, a), b) == Patched(msg, b)
  {
  }

  // ---------------------------------------------------------------- adding EDNS to a query

  /** CreateOPT: no flags, no options, the size clamped to 512..65535. */
  function OptFor(udpSize: int): OptRecord {
    OptRecord(if udpSize < MIN_UDP_SIZE then MIN_UDP_SIZE else if udpSize > 0xFFFF then 0xFFFF else udpSize,
              0, 0, false, [])
  }

  function BumpCount(ar: U16): U16 { if ar < 0xFFFF then ar + 1 else ar }

  function WithEdns(req: Packet, bytes: seq<Byte>, udpSize: int): seq<Byte> {
    if ExtractedOpt(req.additionals).Some? || |bytes| < HEADER_SIZE then bytes
    else Splice(bytes, 10, PutU16(BumpCount(GetU16(bytes, 10)))) + OptWire(OptFor(udpSize))
  }

  method AddEDNSToRequestBytes(req: Packet, reqBytes: seq<Byte>, udpSize: int) returns (r: seq<Byte>)
    ensures r == WithEdns(req, reqBytes, udpSize)
  {
    var existing := ExtractOPT(req.additionals);
    if existing.Some? { return reqBytes; }
    var optBytes := OptWire(OptFor(udpSize));
    if |reqBytes| < HEADER_SIZE { return reqBytes; }
    var ar := BumpCount(GetU16(reqBytes, 10));
    var out := new Byte[|reqBytes|](i requires 0 <= i < |reqBytes| => reqBytes[i]);
    out[10] := ar / 0x100;
    out[11] := ar % 0x100;
    assert out[..] == Splice(reqBytes, 10, PutU16(ar));
    return out[..] + optBytes;
  }

  function Prepared(req: Packet, bytes: seq<Byte>, ednsEnabled: bool, udpSize: int): seq<Byte> {
    if |bytes| < 2 then bytes
    else if ednsEnabled then WithEdns(req, Patched(bytes, 0), udpSize)
    else Patched(bytes, 0)
  }

  method PrepareQueryBytes(req: Packet, reqBytes: seq<Byte>, ednsEnabled: bool, udpSize: int) returns (r: seq<Byte>)
    ensures r == Prepared(req, reqBytes, ednsEnabled, udpSize)
  {
    hide ExtractedOpt;
    if |reqBytes| < 2 { return reqBytes; }
    var out := new Byte[|reqBytes|](i requires 0 <= i < |reqBytes| => reqBytes[i]);
    out[0], out[1] := 0, 0;
    assert out[..] == Patched(reqBytes, 0);
    if ednsEnabled {
      var clientOPT := ExtractOPT(req.additionals);
      if clientOPT.Some? && clientOPT.value.dnssecOk { return out[..]; }
      r := AddEDNSToRequestBytes(req, out[..], udpSize);
      return;
    }
    return out[..];
  }

  /** The query that goes upstream for `p`: ID 0, and one OPT record appended when `req` shows none. */
  function UpstreamQuery(req: Packet, p: Packet, udpSize: int): Packet {
    var q := p.(header := p.header.(id := 0));
    if ExtractedOpt(req.additionals).Some? then q
    else q.(additionals := p.additionals + [OptAsRecord(OptFor(udpSize))])
  }

  /** The appended record, byte by byte: root owner, TYPE 41, the payload size as CLASS, extended
      RCODE, version and flags (so DO) zero, no options. */
  lemma OptForBytes(udpSize: int)
    ensures var size := if udpSize < 512 then 512 else if udpSize > 65535 then 65535 else udpSize;
            OptWire(OptFor(udpSize)) == [0, 0, 41, size / 256, size % 256, 0, 0, 0, 0, 0, 0]
  {
    var o := OptFor(udpSize);
    assert PackTTL(0, 0, false) == 0;
    assert PutU16(41) == [0, 41] && PutU32(0) == [0, 0, 0, 0] && PutU16(0) == [0, 0];
    assert OptionsWire(o.options) == [];
  }

  /** A query that showed no OPT record reads upstream as one with DO clear and no options. */
  lemma UpstreamReadsOpt(p: Packet, udpSize: int)
    requires ExtractedOpt(p.additionals).None?
    ensures var size := if udpSize < 512 then 512 else if udpSize > 65535 then 65535 else udpSize;
            ExtractedOpt(UpstreamQuery(p, p, udpSize).additionals) == Some(OptRecord(size, 0, 0, false, []))
  {
    hide ExtractedOpt;
    var rs, o := p.additionals, OptFor(udpSize);
    NoOpt(rs);
    PackUnpack(0, 0, false);
    FirstOptDecides(rs + [OptAsRecord(o)], |rs|);
  }

  lemma {:induction false} NoOpt(rs: seq<Record>)
    requires ExtractedOpt(rs).None?
    ensures forall i :: 0 <= i < |rs| ==> !IsOpt(rs[i])
  {
    if rs != [] {
      NoOpt(rs[1..]);
      assert forall i :: 0 < i < |rs| ==> rs[i] == rs[1..][i - 1];
    }
  }

  lemma AppendedOptWire(p: Packet, o: OptRecord)
    requires PacketWire(p).Ok? && RDataFits(o)
    ensures PacketWire(p.(additionals := p.additionals + [OptAsRecord(o)]))
         == Ok(Splice(PacketWire(p).value, 10, PutU16(ClampU16(|p.additionals| + 1))) + OptWire(o))
  {
    hide QuestionsWire, RecordsWire, PutU16, HeaderWire, OptWire, OptAsRecord, RDataFits;
    var p' := p.(additionals := p.additionals + [OptAsRecord(o)]);
    var h, h' := CountedHeader(p), CountedHeader(p');
    var body := QuestionsWire(p.questions).value + RecordsWire(Records(p)).value;
    assert Records(p') == Records(p) + [OptAsRecord(o)];
    OneRecordWire(o);
    RecordsWireAppend(Records(p), [OptAsRecord(o)]);
    HeaderTail(h);
    HeaderTail(h');
    assert HeaderWire(h)[..10] == HeaderWire(h')[..10];
    assert PacketWire(p).value == HeaderWire(h) + body;
    assert PacketWire(p').value == HeaderWire(h') + body + OptWire(o);
    SpliceCount(h, body, h'.ar);
  }

  lemma OneRecordWire(o: OptRecord)
    requires RDataFits(o)
    ensures RecordsWire([OptAsRecord(o)]) == Ok(OptWire(o))
  {
    hide OptWire, OptAsRecord, RecordWire;
    OptIsRecord(o);
    assert [OptAsRecord(o)][1..] == [];
    assert OptWire(o) + [] == OptWire(o);
  }

  lemma SpliceCount(h: Header, body: seq<Byte>, ar: U16)
    ensures Splice(HeaderWire(h) + body, 10, PutU16(ar)) == HeaderWire(h.(ar := ar)) + body
  {
    hide PutU16, HeaderWire;
    var h' := h.(ar := ar);
    HeaderTail(h);
    HeaderTail(h');
    var w := HeaderWire(h) + body;
    assert w[..10] == HeaderWire(h')[..10];
    assert w[12..] == body;
    assert HeaderWire(h') == HeaderWire(h')[..10] + HeaderWire(h')[10..];
    assert HeaderWire(h') + body == HeaderWire(h')[..10] + PutU16(ar) + body;
  }

  lemma PrintedCount(p: Packet)
    requires PacketWire(p).Ok?
    ensures |PacketWire(p).value| >= HEADER_SIZE
    ensures GetU16(PacketWire(p).value, 10) == ClampU16(|p.additionals|)
  {
    hide QuestionsWire, RecordsWire;
    var h := CountedHeader(p);
    var body := QuestionsWire(p.questions).value + RecordsWire(Records(p)).value;
    var w := PacketWire(p).value;
    assert w == HeaderWire(h) + body;
    AtSelf(w);
    AtAppend(w, 0, HeaderWire(h), body);
    HeaderRoundTrip(h, w);
  }

  /** Query preparation commutes with printing, whatever packet `req` the caller decoded. */
  lemma PrepareCommutes(req: Packet, p: Packet, udpSize: int)
    requires PacketWire(p).Ok?
    ensures PacketWire(UpstreamQuery(req, p, udpSize)) == Ok(Prepared(req, PacketWire(p).value, true, udpSize))
    ensures PacketWire(p.(header := p.header.(id := 0))) == Ok(Prepared(req, PacketWire(p).value, false, udpSize))
  {
    hide PacketWire, ExtractedOpt, OptWire, OptAsRecord, Patched, Splice;
    var q := p.(header := p.header.(id := 0));
    PrintedCount(p);
    PatchCommutes(p, 0);
    if ExtractedOpt(req.additionals).None? {
      PrintedCount(q);
      AppendedOptWire(q, OptFor(udpSize));
    }
  }
}
