/** EDNS options and the OPT pseudo-record: internal/dns/edns.go. */
module Edns {
  import opened Wire
  import opened Packets

  const MIN_UDP_SIZE := 512
  const MAX_UDP_SIZE := 4096
  const MAX_OPTION_DATA := 4096

  datatype Opt = Opt(code: U16, data: seq<Byte>)

  datatype OptRecord = OptRecord(udpSize: U16, extRCode: Byte, version: Byte, dnssecOk: bool, options: seq<Opt>)

  /** COOKIE and PADDING. */
  predicate Allowed(code: U16) { code == 10 || code == 12 }

  predicate Small(o: Opt) { |o.data| <= MAX_OPTION_DATA }

  function OptionWire(o: Opt): (b: seq<Byte>)
    ensures |b| == 4 + |o.data|
  {
    PutU16(o.code) + PutU16(ClampU16(|o.data|)) + o.data
  }

  /** Every option, as OPTRecord.Marshal prints them. */
  function OptionsWire(opts: seq<Opt>): seq<Byte> {
    if opts == [] then [] else OptionWire(opts[0]) + OptionsWire(opts[1..])
  }

  function Filter(opts: seq<Opt>, keep: Opt -> bool): seq<Opt> {
    if opts == [] then []
    else (if keep(opts[0]) then [opts[0]] else []) + Filter(opts[1..], keep)
  }

  /** What a reader keeps: COOKIE (10) and PADDING (12) options of at most 4096 data bytes. */
  function Survives(o: Opt): bool { (o.code == 10 || o.code == 12) && |o.data| <= 4096 }

  /** The options a reader of `rdata` recovers from offset `i` on. */
  function OptionsAt(rdata: seq<Byte>, i: nat): seq<Opt>
    decreases |rdata| - i
  {
    if i + 4 > |rdata| then []
    else
      var code, ln := GetU16(rdata, i), GetU16(rdata, i + 2);
      var next := i + 4 + ln;
      if next > |rdata| then []
      else if ln > MAX_OPTION_DATA || !Allowed(code) then OptionsAt(rdata, next)
      else [Opt(code, rdata[i + 4..next])] + OptionsAt(rdata, next)
  }

  lemma OptionsStep(done: seq<Opt>, o: Opt, rest: seq<Opt>)
    ensures done + ([o] + rest) == (done + [o]) + rest
  {
  }

  method ParseEDNSOptions(rdata: seq<Byte>) returns (opts: seq<Opt>)
    ensures opts == OptionsAt(rdata, 0)
  {
    hide GetU16, Allowed;
    opts := [];
    var i := 0;
    while i < |rdata|
      invariant OptionsAt(rdata, 0) == opts + (if i <= |rdata| then OptionsAt(rdata, i) else [])
      decreases |rdata| - i
    {
      if |rdata| - i < 4 { break; }
      var code, ln := GetU16(rdata, i), GetU16(rdata, i + 2);
      i := i + 4;
      if ln > MAX_OPTION_DATA {
        i := i + ln;
        if i > |rdata| { break; }
        continue;
      }
      if i + ln > |rdata| { break; }
      if !Allowed(code) {
        i := i + ln;
        continue;
      }
      var opt := Opt(code, rdata[i..i + ln]);
      OptionsStep(opts, opt, OptionsAt(rdata, i + ln));
      opts := opts + [opt];
      i := i + ln;
    }
  }

  /** MarshalEDNSOptions: oversized options are left out. */
  method MarshalEDNSOptions(opts: seq<Opt>) returns (out: seq<Byte>)
    ensures out == OptionsWire(Filter(opts, Small))
  {
    hide OptionWire;
    if |opts| == 0 { return []; }
    var size := 0;
    assert opts[0..] == opts;
    for i := 0 to |opts|
      invariant |OptionsWire(Filter(opts, Small))| == size + |OptionsWire(Filter(opts[i..], Small))|
    {
      assert opts[i..][1..] == opts[i + 1..];
      OptionsWireStep(opts[i..]);
      if |opts[i].data| > MAX_OPTION_DATA { continue; }
      size := size + 4 + |opts[i].data|;
    }
    if size == 0 { return []; }
    out := [];
    for i := 0 to |opts|
      invariant OptionsWire(Filter(opts, Small)) == out + OptionsWire(Filter(opts[i..], Small))
    {
      assert opts[i..][1..] == opts[i + 1..];
      OptionsWireStep(opts[i..]);
      if |opts[i].data| > MAX_OPTION_DATA { continue; }
      out := out + OptionWire(opts[i]);
    }
  }

  lemma OptionsWireStep(opts: seq<Opt>)
    requires opts != []
    ensures OptionsWire(Filter(opts, Small))
         == (if Small(opts[0]) then OptionWire(opts[0]) else []) + OptionsWire(Filter(opts[1..], Small))
  {
    var rest := Filter(opts[1..], Small);
    if Small(opts[0]) {
      assert ([opts[0]] + rest)[1..] == rest;
    } else {
      assert [] + rest == rest;
      assert [] + OptionsWire(rest) == OptionsWire(rest);
    }
  }

  predicate LengthsFit(opts: seq<Opt>) {
    forall i :: 0 <= i < |opts| ==> |opts[i].data| <= 0xFFFF
  }

  lemma OptionRead(o: Opt, rdata: seq<Byte>, i: nat)
    requires |o.data| <= 0xFFFF && At(rdata, i, OptionWire(o))
    ensures OptionsAt(rdata, i)
         == (if Survives(o) then [o] else []) + OptionsAt(rdata, i + 4 + |o.data|)
  {
    var next := i + 4 + |o.data|;
    AtAppend(rdata, i, PutU16(o.code) + PutU16(|o.data|), o.data);
    AtAppend(rdata, i, PutU16(o.code), PutU16(|o.data|));
    GetPutU16(rdata, i, o.code);
    GetPutU16(rdata, i + 2, |o.data|);
    assert [] + OptionsAt(rdata, next) == OptionsAt(rdata, next);
  }

  /** Reading back printed options keeps exactly the allowed ones with at most 4096 data bytes. */
  lemma {:induction false} OptionsRoundTrip(opts: seq<Opt>, rdata: seq<Byte>, i: nat)
    requires LengthsFit(opts) && At(rdata, i, OptionsWire(opts)) && i + |OptionsWire(opts)| == |rdata|
    ensures OptionsAt(rdata, i) == Filter(opts, Survives)
    decreases opts
  {
    hide At, OptionWire, Survives;
    if opts != [] {
      AtAppend(rdata, i, OptionWire(opts[0]), OptionsWire(opts[1..]));
      OptionRead(opts[0], rdata, i);
      OptionsRoundTrip(opts[1..], rdata, i + 4 + |opts[0].data|);
    }
  }

  lemma {:induction false} FilterSmall(opts: seq<Opt>)
    ensures LengthsFit(Filter(opts, Small))
    ensures Filter(Filter(opts, Small), Survives) == Filter(opts, Survives)
  {
    if opts != [] {
      FilterSmall(opts[1..]);
      var rest := Filter(opts[1..], Small);
      if Small(opts[0]) {
        assert ([opts[0]] + rest)[1..] == rest;
      } else {
        assert [] + rest == rest;
        assert [] + Filter(opts[1..], Survives) == Filter(opts[1..], Survives);
      }
    }
  }

  /** ParseEDNSOptions after MarshalEDNSOptions, for every list of options. */
  lemma EdnsOptionsRoundTrip(opts: seq<Opt>)
    ensures OptionsAt(OptionsWire(Filter(opts, Small)), 0) == Filter(opts, Survives)
  {
    var rdata := OptionsWire(Filter(opts, Small));
    FilterSmall(opts);
    AtSelf(rdata);
    OptionsRoundTrip(Filter(opts, Small), rdata, 0);
  }

  // ---------------------------------------------------------------- the OPT record

  function PackTTL(extRCode: Byte, version: Byte, dnssecOk: bool): U32 {
    (extRCode as int) * 0x100_0000 + (version as int) * 0x1_0000 + (if dnssecOk then 0x8000 else 0)
  }

  function OptWire(o: OptRecord): seq<Byte> {
    var rdata := OptionsWire(o.options);
    [0] + FixedWire(TYPE_OPT, o.udpSize, PackTTL(o.extRCode, o.version, o.dnssecOk), ClampU16(|rdata|)) + rdata
  }

  /** The OPT record as a resource record of the additional section. */
  function OptAsRecord(o: OptRecord): Record {
    OpaqueRecord(RRHeader([], o.udpSize, PackTTL(o.extRCode, o.version, o.dnssecOk)), TYPE_OPT,
                 Raw(OptionsWire(o.options)))
  }

  predicate IsOpt(r: Record) {
    r.OpaqueRecord? && r.t == TYPE_OPT && r.data.Raw?
  }

  function Unpacked(r: Record): OptRecord
    requires IsOpt(r)
  {
    OptRecord(r.h.rrClass, r.h.ttl / 0x100_0000, r.h.ttl / 0x1_0000 % 0x100, r.h.ttl / 0x8000 % 2 == 1,
              OptionsAt(r.data.bytes, 0))
  }

  /** ExtractOPT: the first OPT record with raw RDATA. */
  function ExtractedOpt(rs: seq<Record>): Option<OptRecord> {
    if rs == [] then None
    else if IsOpt(rs[0]) then Some(Unpacked(rs[0]))
    else ExtractedOpt(rs[1..])
  }

  method ExtractOPT(additionals: seq<Record>) returns (o: Option<OptRecord>)
    ensures o == ExtractedOpt(additionals)
    ensures o.None? <==> forall i :: 0 <= i < |additionals| ==> !IsOpt(additionals[i])
  {
    assert additionals[0..] == additionals;
    for i := 0 to |additionals|
      invariant ExtractedOpt(additionals) == ExtractedOpt(additionals[i..])
      invariant forall j :: 0 <= j < i ==> !IsOpt(additionals[j])
    {
      var r := additionals[i];
      assert additionals[i..][1..] == additionals[i + 1..];
      if TypeOf(r) != TYPE_OPT { continue; }
      if !r.OpaqueRecord? { continue; }
      if !r.data.Raw? { continue; }
      var opts := ParseEDNSOptions(r.data.bytes);
      return Some(OptRecord(r.h.rrClass, r.h.ttl / 0x100_0000, r.h.ttl / 0x1_0000 % 0x100,
                            r.h.ttl / 0x8000 % 2 == 1, opts));
    }
    return None;
  }

  /** The first OPT record decides, whatever follows it. */
  lemma {:induction false} FirstOptDecides(rs: seq<Record>, i: nat)
    requires i < |rs| && IsOpt(rs[i]) && forall j :: 0 <= j < i ==> !IsOpt(rs[j])
    ensures ExtractedOpt(rs) == Some(Unpacked(rs[i]))
  {
    if i > 0 { FirstOptDecides(rs[1..], i - 1); }
  }

  lemma PackUnpack(e: Byte, v: Byte, d: bool)
    ensures PackTTL(e, v, d) / 0x100_0000 == e
    ensures PackTTL(e, v, d) / 0x1_0000 % 0x100 == v
    ensures (PackTTL(e, v, d) / 0x8000 % 2 == 1) == d
  {
    var low := if d then 0x8000 else 0;
    var t: int := PackTTL(e, v, d);
    assert t / 0x1_0000 == e * 0x100 + v;
    assert t / 0x8000 == (e * 0x100 + v) * 2 + low / 0x8000;
  }

  predicate RDataFits(o: OptRecord) {
    LengthsFit(o.options) && |OptionsWire(o.options)| <= 0xFFFF
  }

  lemma OptIsRecord(o: OptRecord)
    requires RDataFits(o)
    ensures RecordWire(OptAsRecord(o)) == Ok(OptWire(o))
  {
  }

  /** An OPT record survives Marshal, ParseRecord and ExtractOPT wherever it stands in a message,
      apart from options a reader must drop. */
  lemma OptRoundTrip(o: OptRecord, msg: seq<Byte>, off: nat)
    requires RDataFits(o) && At(msg, off, OptWire(o))
    ensures RecordAt(msg, off) == Ok((OptAsRecord(o), off + |OptWire(o)|))
    ensures ExtractedOpt([OptAsRecord(o)]) == Some(o.(options := Filter(o.options, Survives)))
  {
    hide OptWire, PackTTL, Names.Decode, RecordAt, Filter, OptionsWire, OptionsAt;
    OptIsRecord(o);
    RecordRoundTrip(OptAsRecord(o), msg, off);
    PackUnpack(o.extRCode, o.version, o.dnssecOk);
    AtSelf(OptionsWire(o.options));
    OptionsRoundTrip(o.options, OptionsWire(o.options), 0);
  }

  /** ClientMaxUDPSize. */
  function ClientMaxUDPSize(req: Packet): (n: nat)
    ensures MIN_UDP_SIZE <= n
  {
    match ExtractedOpt(req.additionals)
    case None => MIN_UDP_SIZE
    case Some(o) => if o.udpSize < MIN_UDP_SIZE then MIN_UDP_SIZE else o.udpSize
  }
}
