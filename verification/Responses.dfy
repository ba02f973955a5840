/** What a forwarded reply may look like next to the upstream message it came from:
    validateResponse and the edits on the way to the client, in
    internal/resolvers/forwarding_resolver.go. */
module Responses {
  import opened Wire
  import opened Names
  import opened Packets
  import opened Truncation
  import opened Rewrites
  import opened TtlAging
  import opened TtlFields

  /** equalDNSNames, for ASCII names. */
  predicate EqualNames(a: Text, b: Text) {
    Lower(TrimSuffixDot(a)) == Lower(TrimSuffixDot(b))
  }

  /** validateResponse accepts `resp` as an answer to `q`. */
  predicate Validates(q: Question, resp: seq<Byte>) {
    match Parsed(resp)
    case Err => false
    case Ok(p) =>
      p.questions != []
      && EqualNames(q.name, p.questions[0].name)
      && q.qtype == p.questions[0].qtype && q.qclass == p.questions[0].qclass
  }

  method ValidateResponse(q: Question, resp: seq<Byte>) returns (ok: bool)
    ensures ok <==> Validates(q, resp)
  {
    hide PacketAt;
    var parsed := ParsePacket(resp);
    if parsed.Err? { return false; }
    if |parsed.value.questions| == 0 { return false; }
    var r := parsed.value.questions[0];
    if !EqualNames(q.name, r.name) { return false; }
    if q.qtype != r.qtype { return false; }
    return q.qclass == r.qclass;
  }

  /** The first question of `m` is for the name, type and class of `q`; case and one trailing dot do
      not matter. */
  predicate Asks(m: seq<Byte>, q: Question) {
    && Parsed(m).Ok? && |Parsed(m).value.questions| > 0
    && var first := Parsed(m).value.questions[0];
    && Lower(TrimSuffixDot(first.name)) == Lower(TrimSuffixDot(q.name))
    && first.qtype == q.qtype && first.qclass == q.qclass
  }

  /** What validateResponse accepts is exactly what asks the asker's question. */
  lemma ValidatesIff(q: Question, m: seq<Byte>)
    ensures Validates(q, m) <==> Asks(m, q)
  {
    hide PacketAt;
  }

  /** For printed messages, in terms of what was printed. */
  lemma ValidatesPrinted(q: Question, p: Packet)
    requires Printable(p)
    ensures Validates(q, PacketWire(p).value) <==>
            && p.questions != []
            && Lower(TrimSuffixDot(q.name)) == Lower(TrimDots(p.questions[0].name))
            && q.qtype == p.questions[0].qtype && q.qclass == p.questions[0].qclass
  {
    hide PacketAt, PacketWire, CanonRecords, Lower, KindsOk;
    PacketRoundTrip(p);
    if p.questions != [] {
      assert CanonPacket(p).questions[0] == CanonQuestion(p.questions[0]);
      LowerAgain(TrimDots(p.questions[0].name));
    }
  }

  /** Lowering text without a trailing dot leaves nothing for a second normalization. */
  lemma LowerAgain(t: Text)
    requires t == [] || t[|t| - 1] != DOT
    ensures Lower(TrimSuffixDot(Lower(t))) == Lower(t)
  {
    hide Lower;
    var l := Lower(t);
    assert TrimSuffixDot(l) == l;
    assert forall i :: 0 <= i < |l| ==> Lower(l)[i] == l[i];
  }

  /** The reply carries the asker's ID and is `m` in every other byte outside TTL fields. */
  ghost predicate Derived(m: seq<Byte>, id: U16, reply: seq<Byte>) {
    && |reply| == |m| && |m| >= HEADER_SIZE
    && GetU16(reply, 0) == id
    && forall i :: 2 <= i < |m| && !InField(MessageFields(m), i) ==> reply[i] == m[i]
  }

  lemma ValidatedLength(q: Question, m: seq<Byte>)
    requires Validates(q, m)
    ensures |m| >= HEADER_SIZE
  {
    hide QuestionsAt, RecordsAt;
  }

  lemma {:induction false} QuestionEndLocal(a: seq<Byte>, b: seq<Byte>, pos: nat, n: nat)
    requires |a| == |b| && forall i :: pos <= i < |a| ==> a[i] == b[i]
    ensures QuestionEnd(a, pos, n) == QuestionEnd(b, pos, n)
    decreases n
  {
    hide SkipName;
    if n > 0 {
      SkipLocal(a, b, pos);
      if SkipName(a, pos) + 4 <= |a| {
        QuestionEndLocal(a, b, SkipName(a, pos) + 4, n - 1);
      }
    }
  }

  /** Where the TTL fields are does not depend on the transaction ID. */
  lemma FieldsIgnoreId(m: seq<Byte>, id: U16)
    ensures MessageFields(Patched(m, id)) == MessageFields(m)
  {
    hide FieldsFrom, QuestionEnd;
    var p := Patched(m, id);
    if |m| >= HEADER_SIZE {
      QuestionEndLocal(m, p, HEADER_SIZE, GetU16(m, 4));
      FieldsLocal(m, p, QuestionEnd(m, HEADER_SIZE, GetU16(m, 4)), RecordCount(m));
    }
  }

  /** A fresh or shared response, patched for the asker. */
  lemma PatchedIsDerived(m: seq<Byte>, id: U16)
    requires |m| >= HEADER_SIZE
    ensures Derived(m, id, Patched(Patched(m, 0), id))
  {
    hide MessageFields;
    PatchTwice(m, 0, id);
  }

  /** A cached response, aged and patched for the asker; this holds for every message, also when
      a pointer leads into the ID or a TTL. */
  lemma AgedIsDerived(m: seq<Byte>, id: U16, age: int)
    requires |m| >= HEADER_SIZE
    ensures Derived(m, id, Patched(Aged(Patched(m, 0), age), id))
  {
    hide MessageFields, Aged, InField, WholeSeconds, AgedTTL, GetU32;
    var v := Patched(m, 0);
    AgedExact(v, age);
    FieldsIgnoreId(m, 0);
  }

  // ---------------------------------------------------------------- TTLs under another ID

  lemma SameBytes(a: seq<Byte>, b: seq<Byte>, f: nat, i: nat)
    requires f + 4 <= |a| == |b| && GetU32(a, f) == GetU32(b, f) && f <= i < f + 4
    ensures a[i] == b[i]
  {
    assert a[f] == b[f] && a[f + 1] == b[f + 1];
  }

  /** Aging and patching commute on messages that are clear under both IDs. */
  lemma AgedUnderId(v: seq<Byte>, id: U16, age: int)
    requires |v| >= HEADER_SIZE && age > 0 && WholeSeconds(age) > 0
    requires PacketAt(v).Ok? && NamesClear(v) && PacketAt(Patched(v, id)).Ok? && NamesClear(Patched(v, id))
    ensures Patched(Aged(v, age), id) == Aged(Patched(v, id), age)
  {
    hide PacketAt, NamesClear, Aged, MessageFields, WholeSeconds, AgedTTL, GetU32, InField, AgedPacket;
    var w, s, fs := Patched(v, id), WholeSeconds(age), MessageFields(v);
    AgingParses(v, PacketAt(v).value.0, PacketAt(v).value.1, age);
    AgingParses(w, PacketAt(w).value.0, PacketAt(w).value.1, age);
    FieldsIgnoreId(v, id);
    var x, y := Patched(Aged(v, age), id), Aged(w, age);
    forall i | 0 <= i < |v| ensures x[i] == y[i] {
      SameAt(v, w, Aged(v, age), y, id, fs, s, i);
    }
  }

  lemma SameAt(v: seq<Byte>, w: seq<Byte>, a: seq<Byte>, y: seq<Byte>, id: U16, fs: seq<nat>, s: U32, i: nat)
    requires |v| >= HEADER_SIZE && w == Patched(v, id) && i < |v|
    requires AgedAt(v, a, fs, s) && AgedAt(w, y, fs, s) && forall f :: f in fs ==> HEADER_SIZE <= f
    ensures Patched(a, id)[i] == y[i]
  {
    hide GetU32, AgedTTL;
    if InField(fs, i) {
      var f :| f in fs && f <= i < f + 4;
      SameU32(v, w, f);
      SameBytes(a, y, f, i);
    }
  }

  /** A record's TTL and type are read from its own bytes. */
  lemma SameTTL(a: seq<Byte>, b: seq<Byte>, off: nat)
    requires |a| == |b| && (forall i :: off <= i < |a| ==> a[i] == b[i])
    requires RecordAt(a, off).Ok? && RecordAt(b, off).Ok?
    ensures RecordAt(a, off).value.1 == RecordAt(b, off).value.1
    ensures RecordAt(a, off).value.0.h.ttl == RecordAt(b, off).value.0.h.ttl
    ensures TypeOf(RecordAt(a, off).value.0) == TypeOf(RecordAt(b, off).value.0)
  {
    hide Decode, SkipName, GetU16, GetU32;
    SkipLocal(a, b, off);
    SkipDecoded(a, off);
    SkipDecoded(b, off);
    var o := SkipName(a, off);
    SameU16(a, b, o);
    SameU16(a, b, o + 8);
    SameU32(a, b, o + 4);
    var rdlen := GetU16(a, o + 8);
    assert a[o + 10..o + 10 + rdlen] == b[o + 10..o + 10 + rdlen];
  }

  lemma {:induction false} SameTTLs(a: seq<Byte>, b: seq<Byte>, off: nat, n: nat, k: nat)
    requires |a| == |b| && (forall i :: off <= i < |a| ==> a[i] == b[i]) && k < n
    requires RecordsAt(a, off, n).Ok? && RecordsAt(b, off, n).Ok?
    ensures var x, y := RecordsAt(a, off, n).value.0[k], RecordsAt(b, off, n).value.0[k];
            x.h.ttl == y.h.ttl && TypeOf(x) == TypeOf(y)
    decreases n
  {
    hide RecordAt, TypeOf;
    SameTTL(a, b, off);
    if k > 0 {
      SameTTLs(a, b, RecordAt(a, off).value.1, n - 1, k - 1);
    }
  }

  /** The ID decides nothing about any record's TTL. */
  lemma TTLsIgnoreId(v: seq<Byte>, id: U16, k: nat)
    requires Parsed(v).Ok? && Parsed(Patched(v, id)).Ok? && k < |Records(Parsed(v).value)|
    ensures var p, q := Parsed(v).value, Parsed(Patched(v, id)).value;
            && |q.answers| == |p.answers| && |Records(q)| == |Records(p)|
            && Records(q)[k].h.ttl == Records(p)[k].h.ttl && TypeOf(Records(q)[k]) == TypeOf(Records(p)[k])
  {
    hide RecordsAt, QuestionsAt, QuestionEnd, TypeOf;
    var w, h := Patched(v, id), HeaderAt(v).value;
    assert HeaderAt(w) == Ok(h.(id := id));
    QuestionEndAgrees(v, HEADER_SIZE, h.qd);
    QuestionEndAgrees(w, HEADER_SIZE, h.qd);
    QuestionEndLocal(v, w, HEADER_SIZE, h.qd);
    var o1, n := QuestionEnd(v, HEADER_SIZE, h.qd), h.an + h.ns + h.ar;
    AllRecords(v, o1, h, QuestionsAt(v, HEADER_SIZE, h.qd).value.0);
    AllRecords(w, o1, h.(id := id), QuestionsAt(w, HEADER_SIZE, h.qd).value.0);
    SameTTLs(v, w, o1, n, k);
  }

  /** The records of a parsed message, read in one batch. */
  lemma AllRecords(msg: seq<Byte>, o1: nat, h: Header, qs: seq<Question>)
    requires HeaderAt(msg) == Ok(h) && QuestionsAt(msg, HEADER_SIZE, h.qd) == Ok((qs, o1)) && PacketAt(msg).Ok?
    ensures RecordsAt(msg, o1, h.an + h.ns + h.ar).Ok?
    ensures Records(PacketAt(msg).value.0) == RecordsAt(msg, o1, h.an + h.ns + h.ar).value.0
    ensures |PacketAt(msg).value.0.answers| == h.an
  {
    hide RecordsAt, QuestionsAt, HeaderAt;
    SectionsRead(msg, o1, h, qs);
  }

  // ---------------------------------------------------------------- messages that do not read their ID

  /** Decoding the name at `o` does not look at the ID. */
  ghost predicate IgnoresId(msg: seq<Byte>, o: nat) {
    forall i: nat :: Reads(msg, o, MAX_HOPS, i) ==> 2 <= i
  }

  /** No pointer of the message leads into its ID. */
  ghost predicate IdUnread(msg: seq<Byte>)
    requires |msg| >= HEADER_SIZE
  {
    && (forall o :: o in QuestionNames(msg, HEADER_SIZE, GetU16(msg, 4)) ==> IgnoresId(msg, o))
    && (forall o :: o in RecordNames(msg, QuestionsStop(msg), RecordCount(msg)) ==> IgnoresId(msg, o))
  }

  predicate SameButId(a: seq<Byte>, b: seq<Byte>) {
    |a| == |b| && forall i :: 2 <= i < |a| ==> a[i] == b[i]
  }

  lemma {:induction false} SameReads(a: seq<Byte>, b: seq<Byte>, off: nat, hops: nat, i: nat)
    requires |a| == |b| && forall j :: 0 <= j < |a| && Reads(a, off, hops, j) ==> a[j] == b[j]
    ensures Reads(b, off, hops, i) == Reads(a, off, hops, i)
    decreases hops, |a| - off
  {
    if off < |a| {
      assert Reads(a, off, hops, off);
      if a[off] >= 0xC0 {
        if off + 1 < |a| && hops > 0 {
          assert Reads(a, off, hops, off + 1);
          SameReads(a, b, Pointer(a[off], a[off + 1]), hops - 1, i);
        }
      } else if 0 < a[off] < 0x40 && off + 1 + a[off] <= |a| {
        SameReads(a, b, off + 1 + a[off], hops, i);
      }
    }
  }

  /** Such a name is the same name under another ID, read from the same bytes. */
  lemma NameUnderId(a: seq<Byte>, b: seq<Byte>, off: nat)
    requires SameButId(a, b) && IgnoresId(a, off)
    ensures Decode(b, off) == Decode(a, off)
    ensures forall i: nat :: Reads(b, off, MAX_HOPS, i) == Reads(a, off, MAX_HOPS, i)
  {
    hide LabelsFrom, Reads, Join;
    SameName(a, b, off, MAX_HOPS);
    forall i: nat ensures Reads(b, off, MAX_HOPS, i) == Reads(a, off, MAX_HOPS, i) {
      SameReads(a, b, off, MAX_HOPS, i);
    }
  }

  lemma RecordUnderId(a: seq<Byte>, b: seq<Byte>, off: nat, n: nat)
    requires SameButId(a, b) && 2 <= off && n > 0 && RecordAt(a, off).Ok?
    requires forall o :: o in RecordNames(a, off, n) ==> IgnoresId(a, o)
    ensures RecordAt(b, off) == RecordAt(a, off)
    ensures var o := SkipName(a, off);
            && SkipName(b, off) == o && o + 10 <= |a| && RecordAt(a, off).value.1 == o + 10 + GetU16(a, o + 8)
            && GetU16(b, o) == GetU16(a, o) && GetU16(b, o + 8) == GetU16(a, o + 8)
  {
    hide Decode, SkipName, IgnoresId, GetU16, GetU32;
    SkipLocal(a, b, off);
    RecordEnd(a, off);
    NameUnderId(a, b, off);
    var o := SkipName(a, off);
    SkipDecoded(a, off);
    SameU16(a, b, o);
    SameU16(a, b, o + 2);
    SameU16(a, b, o + 8);
    SameU32(a, b, o + 4);
    if IsNameType(GetU16(a, o)) {
      NameUnderId(a, b, o + 10);
    }
    var rdlen := GetU16(a, o + 8);
    assert a[o + 10..o + 10 + rdlen] == b[o + 10..o + 10 + rdlen];
  }

  lemma {:induction false} RecordsUnderId(a: seq<Byte>, b: seq<Byte>, off: nat, n: nat)
    requires SameButId(a, b) && 2 <= off && RecordsAt(a, off, n).Ok?
    requires forall o :: o in RecordNames(a, off, n) ==> IgnoresId(a, o)
    ensures RecordsAt(b, off, n) == RecordsAt(a, off, n) && RecordNames(b, off, n) == RecordNames(a, off, n)
    decreases n
  {
    hide RecordAt, SkipName, IgnoresId, SameButId, GetU16;
    if n > 0 {
      RecordUnderId(a, b, off, n);
      RecordsUnderId(a, b, RecordAt(a, off).value.1, n - 1);
    }
  }

  lemma {:induction false} QuestionsUnderId(a: seq<Byte>, b: seq<Byte>, off: nat, n: nat)
    requires SameButId(a, b) && 2 <= off && QuestionsAt(a, off, n).Ok?
    requires forall o :: o in QuestionNames(a, off, n) ==> IgnoresId(a, o)
    ensures QuestionsAt(b, off, n) == QuestionsAt(a, off, n) && QuestionNames(b, off, n) == QuestionNames(a, off, n)
    decreases n
  {
    hide Decode, SkipName, IgnoresId, GetU16, NormalizeName;
    if n > 0 {
      SkipLocal(a, b, off);
      SkipDecoded(a, off);
      NameUnderId(a, b, off);
      var o := SkipName(a, off);
      SameU16(a, b, o);
      SameU16(a, b, o + 2);
      QuestionsUnderId(a, b, o + 4, n - 1);
    }
  }

  /** A name that reads neither the ID nor a field is clear of the fields under every ID. */
  lemma ClearUnderId(a: seq<Byte>, b: seq<Byte>, names: set<nat>, fs: seq<nat>)
    requires SameButId(a, b) && forall o :: o in names ==> IgnoresId(a, o) && NameClear(a, o, fs)
    ensures forall o :: o in names ==> NameClear(b, o, fs)
  {
    hide IgnoresId, Reads, InField;
    forall o | o in names ensures NameClear(b, o, fs) {
      NameUnderId(a, b, o);
    }
  }

  /** For every message that parses and whose names read neither its ID nor a TTL field, compressed
      or not: under another ID it parses to the message with that ID, and stays clear. */
  lemma ParsesUnderId(v: seq<Byte>, id: U16, p: Packet, end: nat)
    requires |v| >= HEADER_SIZE && PacketAt(v) == Ok((p, end)) && NamesClear(v) && IdUnread(v)
    ensures PacketAt(Patched(v, id)) == Ok((p.(header := p.header.(id := id)), end))
    ensures NamesClear(Patched(v, id))
  {
    hide RecordsAt, QuestionsAt, QuestionEnd, FieldsFrom, MessageFields, QuestionNames, RecordNames;
    hide NameClear, IgnoresId;
    var w, h, fs := Patched(v, id), HeaderAt(v).value, MessageFields(v);
    var (qs, o1) := QuestionsAt(v, HEADER_SIZE, h.qd).value;
    assert HeaderAt(w) == Ok(h.(id := id));
    FieldsIgnoreId(v, id);
    QuestionEndLocal(v, w, HEADER_SIZE, h.qd);
    QuestionEndAgrees(v, HEADER_SIZE, h.qd);
    QuestionsUnderId(v, w, HEADER_SIZE, h.qd);
    SectionsRead(v, o1, h, qs);
    var n := RecordCount(v);
    RecordsUnderId(v, w, o1, n);
    SectionsRead(w, o1, h.(id := id), qs);
    ClearUnderId(v, w, QuestionNames(v, HEADER_SIZE, h.qd), fs);
    ClearUnderId(v, w, RecordNames(v, o1, n), fs);
  }
}
