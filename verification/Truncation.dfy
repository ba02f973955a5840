/** Fitting replies into UDP: internal/server/truncate.go and its call in udp_server.go. */
module Truncation {
  import opened Wire
  import opened Names
  import opened Packets
  import Edns

  const TC_FLAG := 0x200

  // ---------------------------------------------------------------- walking without decoding

  /** skipQNAME: where a name's own bytes end, judged by length bytes alone. */
  function SkipName(msg: seq<Byte>, pos: nat): (end: nat)
    ensures pos <= end
    ensures pos <= |msg| ==> end <= |msg|
    decreases |msg| - pos
  {
    if pos >= |msg| then pos
    else if msg[pos] == 0 then pos + 1
    else if msg[pos] >= 0xC0 then if pos + 2 > |msg| then |msg| else pos + 2
    else if pos + 1 + msg[pos] > |msg| then |msg|
    else SkipName(msg, pos + 1 + msg[pos])
  }

  method SkipQNAME(msg: seq<Byte>, start: nat) returns (end: nat)
    ensures end == SkipName(msg, start)
  {
    var pos := start;
    while pos < |msg|
      invariant SkipName(msg, pos) == SkipName(msg, start)
      decreases |msg| - pos
    {
      var labelLen := msg[pos];
      if labelLen == 0 { return pos + 1; }
      if labelLen >= 0xC0 {
        if pos + 2 > |msg| { return |msg|; }
        return pos + 2;
      }
      pos := pos + 1;
      if pos + labelLen > |msg| { return |msg|; }
      pos := pos + labelLen;
    }
    return pos;
  }

  /** Wherever a name decodes, skipping it ends at the same offset. */
  lemma {:induction false} SkipAgrees(msg: seq<Byte>, off: nat, hops: nat)
    requires LabelsFrom(msg, off, hops).Ok?
    ensures SkipName(msg, off) == LabelsFrom(msg, off, hops).value.1
    decreases |msg| - off
  {
    if 0 < msg[off] < 0x40 {
      SkipAgrees(msg, off + 1 + msg[off], hops);
    }
  }

  /** findQuestionSectionEnd from `pos` on. */
  function QuestionEnd(msg: seq<Byte>, pos: nat, n: nat): (end: nat)
    ensures pos <= |msg| ==> pos <= end <= |msg|
    ensures pos <= |msg| && n > 0 ==> end == |msg| || end >= pos + 4
    decreases n
  {
    if n == 0 then pos
    else
      var p := SkipName(msg, pos);
      if p + 4 > |msg| then |msg| else QuestionEnd(msg, p + 4, n - 1)
  }

  method FindQuestionSectionEnd(msg: seq<Byte>, qdcount: nat) returns (end: nat)
    ensures end == QuestionEnd(msg, HEADER_SIZE, qdcount)
  {
    var pos: nat := HEADER_SIZE;
    for i := 0 to qdcount
      invariant QuestionEnd(msg, HEADER_SIZE, qdcount) == QuestionEnd(msg, pos, qdcount - i)
    {
      pos := SkipQNAME(msg, pos);
      if pos > |msg| { return |msg|; }
      if pos + 4 > |msg| { return |msg|; }
      pos := pos + 4;
    }
    return pos;
  }

  /** On messages whose questions parse, the walker stops behind the last parsed question. */
  lemma {:induction false} QuestionEndAgrees(msg: seq<Byte>, pos: nat, n: nat)
    requires QuestionsAt(msg, pos, n).Ok?
    ensures QuestionEnd(msg, pos, n) == QuestionsAt(msg, pos, n).value.1
    decreases n
  {
    hide LabelsFrom, Join;
    if n > 0 {
      SkipAgrees(msg, pos, MAX_HOPS);
      QuestionEndAgrees(msg, QuestionAt(msg, pos).value.1, n - 1);
    }
  }

  // ---------------------------------------------------------------- truncation

  function WithTC(flags: U16): (f: U16)
    ensures f / TC_FLAG % 2 == 1
  {
    if flags / TC_FLAG % 2 == 1 then flags else flags + TC_FLAG
  }

  function Zeros(n: nat): (z: seq<Byte>)
    ensures |z| == n && forall i :: 0 <= i < n ==> z[i] == 0
  {
    seq(n, _ => 0)
  }

  /** buildTruncatedHeader: ID kept, TC set, question count kept, the other counts zero. */
  function TruncatedHeader(resp: seq<Byte>): (h: seq<Byte>)
    requires |resp| >= HEADER_SIZE
    ensures |h| == HEADER_SIZE
  {
    resp[..2] + PutU16(WithTC(GetU16(resp, 2))) + PutU16(GetU16(resp, 4)) + Zeros(6)
  }

  function Limit(maxSize: int): (n: nat)
    ensures n > 0
  {
    if maxSize <= 0 then Edns.MIN_UDP_SIZE else maxSize
  }

  /** Where the walker sees the question section of `resp` end. */
  function QuestionsStop(resp: seq<Byte>): nat
    requires |resp| >= HEADER_SIZE
  {
    QuestionEnd(resp, HEADER_SIZE, GetU16(resp, 4))
  }

  /** The shortened reply keeps the question section. */
  predicate KeepsQuestions(resp: seq<Byte>, maxSize: int)
    requires |resp| >= HEADER_SIZE
  {
    GetU16(resp, 4) > 0 && HEADER_SIZE < QuestionsStop(resp) <= Limit(maxSize)
  }

  /** truncateUDPResponse, including its last step: the buffer behind which the questions are
      appended is freshly allocated, and the header is never copied into it. */
  function Truncated(resp: seq<Byte>, maxSize: int): (out: seq<Byte>)
    ensures |out| <= Limit(maxSize) || |out| <= HEADER_SIZE
  {
    if |resp| <= Limit(maxSize) || |resp| < HEADER_SIZE then resp
    else if KeepsQuestions(resp, maxSize) then Zeros(HEADER_SIZE) + resp[HEADER_SIZE..QuestionsStop(resp)]
    else TruncatedHeader(resp)
  }

  method TruncateUDPResponse(resp: seq<Byte>, maxSize: int) returns (out: seq<Byte>)
    ensures out == Truncated(resp, maxSize)
  {
    var limit := maxSize;
    if limit <= 0 { limit := Edns.MIN_UDP_SIZE; }
    if |resp| <= limit { return resp; }
    if |resp| < HEADER_SIZE { return resp; }
    var qdcount := GetU16(resp, 4);
    var header := TruncatedHeader(resp);
    if qdcount == 0 { return header; }
    var questionEnd := FindQuestionSectionEnd(resp, qdcount);
    if questionEnd <= HEADER_SIZE { return header; }
    if questionEnd > limit { return header; }
    out := Zeros(|header|) + resp[HEADER_SIZE..questionEnd];
  }

  /** What handlePacket sends for a request that parsed: the promised size bound, for every
      request and every response. */
  method UdpReply(req: Packet, resp: seq<Byte>) returns (out: seq<Byte>)
    ensures |out| <= MinInt(MaxInt(512, AdvertisedSize(req)), 4096)
    ensures |resp| <= MinInt(MaxInt(512, AdvertisedSize(req)), 4096) ==> out == resp
  {
    var client := Edns.ClientMaxUDPSize(req);
    var maxSize := if client < Edns.MAX_UDP_SIZE then client else Edns.MAX_UDP_SIZE;
    out := TruncateUDPResponse(resp, maxSize);
  }

  function MinInt(a: int, b: int): int { if a < b then a else b }

  function MaxInt(a: int, b: int): int { if a < b then b else a }

  /** The UDP size in the request's first OPT record, 0 without one. */
  function AdvertisedSize(req: Packet): nat {
    match Edns.ExtractedOpt(req.additionals)
    case None => 0
    case Some(o) => o.udpSize
  }

  /** The documented header: the response's own ID, with TC set. */
  predicate HasPromisedHeader(resp: seq<Byte>, out: seq<Byte>)
    requires |resp| >= HEADER_SIZE && |out| >= HEADER_SIZE
  {
    out[..2] == resp[..2] && GetU16(out, 2) / TC_FLAG % 2 == 1
  }

  /** Among the replies that are shortened, the documented header is missing from exactly those
      that keep their questions. */
  lemma PromisedHeaderIff(resp: seq<Byte>, maxSize: int)
    requires |resp| > Limit(maxSize) && |resp| >= HEADER_SIZE
    ensures |Truncated(resp, maxSize)| >= HEADER_SIZE
    ensures HasPromisedHeader(resp, Truncated(resp, maxSize)) <==> !KeepsQuestions(resp, maxSize)
  {
    hide QuestionEnd, WithTC;
    var out := Truncated(resp, maxSize);
    if KeepsQuestions(resp, maxSize) {
      assert out[2] == 0 && out[3] == 0;
    } else {
      GetPutU16(out, 2, WithTC(GetU16(resp, 2)));
    }
  }

  /** The failing inputs: every printed message that is too long while its questions would fit loses
      its header. */
  lemma PrintedHeaderLost(p: Packet, maxSize: int)
    requires PacketWire(p).Ok? && 0 < |p.questions| <= 0xFFFF
    requires HEADER_SIZE + |QuestionsWire(p.questions).value| <= Limit(maxSize) < |PacketWire(p).value|
    ensures |PacketWire(p).value| >= HEADER_SIZE && KeepsQuestions(PacketWire(p).value, maxSize)
    ensures |Truncated(PacketWire(p).value, maxSize)| >= HEADER_SIZE
    ensures !HasPromisedHeader(PacketWire(p).value, Truncated(PacketWire(p).value, maxSize))
  {
    hide At, QuestionEnd, QuestionsAt, QuestionsWire, RecordsWire, HeaderWire, HasPromisedHeader, CanonQuestions, Limit;
    var msg := PacketWire(p).value;
    var hw, qw, rw := HeaderWire(CountedHeader(p)), QuestionsWire(p.questions).value, RecordsWire(Records(p)).value;
    AtSelf(msg);
    assert msg == hw + qw + rw;
    AtAppend(msg, 0, hw + qw, rw);
    AtAppend(msg, 0, hw, qw);
    HeaderRoundTrip(CountedHeader(p), msg);
    QuestionsRoundTrip(p.questions, msg, HEADER_SIZE);
    QuestionEndAgrees(msg, HEADER_SIZE, |p.questions|);
    QuestionsTakeSpace(p.questions);
    PromisedHeaderIff(msg, maxSize);
  }

  lemma QuestionsTakeSpace(qs: seq<Question>)
    requires qs != [] && QuestionsWire(qs).Ok?
    ensures |QuestionsWire(qs).value| > 0
  {
  }

  /** The header of a reply that is cut down to it: the same ID and question count, no records, and
      of the flags only TC (0x200) changed, to set. */
  lemma CutHeader(resp: seq<Byte>, maxSize: int)
    requires |resp| > Limit(maxSize) && |resp| >= 12 && !KeepsQuestions(resp, maxSize)
    ensures |Truncated(resp, maxSize)| == 12
    ensures var flags, h := GetU16(resp, 2), HeaderAt(Truncated(resp, maxSize)).value;
            && h == Header(GetU16(resp, 0), h.flags, GetU16(resp, 4), 0, 0, 0)
            && h.flags / 0x200 % 2 == 1 && h.flags / 0x400 == flags / 0x400 && h.flags % 0x200 == flags % 0x200
  {
    hide KeepsQuestions;
    var out, flags := Truncated(resp, maxSize), WithTC(GetU16(resp, 2));
    GetPutU16(out, 2, flags);
    GetPutU16(out, 4, GetU16(resp, 4));
    assert out[0] == resp[0] && out[1] == resp[1];
    OnlyTC(GetU16(resp, 2));
  }

  lemma OnlyTC(flags: U16)
    ensures WithTC(flags) / 0x400 == flags / 0x400 && WithTC(flags) % 0x200 == flags % 0x200
  {
  }

  /** Exactly what becomes of a printed message; a limit that is not positive counts as 512. */
  lemma PrintedTruncation(p: Packet, maxSize: int)
    requires PacketWire(p).Ok? && |p.questions| <= 0xFFFF
    ensures var msg, qs := PacketWire(p).value, QuestionsWire(p.questions).value;
            var limit, out := if maxSize <= 0 then 512 else maxSize, Truncated(msg, maxSize);
            && |msg| >= 12
            && (|msg| <= limit ==> out == msg)
            && (|msg| > limit && p.questions != [] && 12 + |qs| <= limit ==> out == Zeros(12) + qs)
            && (|msg| > limit && (p.questions == [] || 12 + |qs| > limit) ==>
                  !KeepsQuestions(msg, maxSize) && |out| == 12)
  {
    hide At, QuestionEnd, QuestionsAt, QuestionsWire, RecordsWire, HeaderWire, CanonQuestions;
    var msg := PacketWire(p).value;
    var hw, qw, rw := HeaderWire(CountedHeader(p)), QuestionsWire(p.questions).value, RecordsWire(Records(p)).value;
    AtSelf(msg);
    assert msg == hw + qw + rw;
    AtAppend(msg, 0, hw + qw, rw);
    AtAppend(msg, 0, hw, qw);
    HeaderRoundTrip(CountedHeader(p), msg);
    QuestionsRoundTrip(p.questions, msg, HEADER_SIZE);
    QuestionEndAgrees(msg, HEADER_SIZE, |p.questions|);
    if p.questions != [] { QuestionsTakeSpace(p.questions); }
    assert msg[12..12 + |qw|] == qw;
  }

  /** Where the questions parse, what is kept is exactly their bytes. */
  lemma QuestionBytesKept(resp: seq<Byte>, maxSize: int, qs: seq<Question>, end: nat)
    requires |resp| > Limit(maxSize) && |resp| >= HEADER_SIZE && KeepsQuestions(resp, maxSize)
    requires QuestionsAt(resp, HEADER_SIZE, GetU16(resp, 4)) == Ok((qs, end))
    ensures Truncated(resp, maxSize) == Zeros(HEADER_SIZE) + resp[HEADER_SIZE..end]
  {
    hide QuestionsAt, QuestionEnd;
    QuestionEndAgrees(resp, HEADER_SIZE, GetU16(resp, 4));
  }
}
