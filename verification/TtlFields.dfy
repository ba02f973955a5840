/** adjustTTLs on messages of foreign origin, compressed names included: which bytes it can
    touch, and when it does to the parsed message what it does to a printed one. */
module TtlFields {
  import opened Wire
  import opened Names
  import opened Packets
  import opened Truncation
  import opened TtlAging

  // ---------------------------------------------------------------- where the TTL fields are

  /** The TTL field of the record whose fixed part is at `o`; an OPT record has none. */
  function OwnField(msg: seq<Byte>, o: nat): (fs: seq<nat>)
    requires o + 10 <= |msg|
    ensures forall f :: f in fs ==> f == o + 4
  {
    if GetU16(msg, o) == TYPE_OPT then [] else [o + 4]
  }

  /** Offsets of the TTL fields of `n` records from `off` on, found from length bytes alone. */
  function FieldsFrom(msg: seq<Byte>, off: nat, n: nat): (fs: seq<nat>)
    ensures forall f :: f in fs ==> off <= f && f + 4 <= |msg|
    decreases n
  {
    if n == 0 then []
    else
      var o := SkipName(msg, off);
      if o + 10 > |msg| then []
      else OwnField(msg, o) + FieldsFrom(msg, o + 10 + GetU16(msg, o + 8), n - 1)
  }

  /** The TTL fields of a whole message. */
  function MessageFields(msg: seq<Byte>): (fs: seq<nat>)
    ensures forall f :: f in fs ==> HEADER_SIZE <= f && f + 4 <= |msg|
  {
    if |msg| < HEADER_SIZE then []
    else FieldsFrom(msg, QuestionEnd(msg, HEADER_SIZE, GetU16(msg, 4)), RecordCount(msg))
  }

  predicate InField(fs: seq<nat>, i: nat) {
    exists f :: f in fs && f <= i < f + 4
  }

  /** `b` is `a` with the TTL in each field aged and every other byte kept. */
  ghost predicate AgedAt(a: seq<Byte>, b: seq<Byte>, fs: seq<nat>, s: U32) {
    && |a| == |b|
    && (forall i :: 0 <= i < |a| && !InField(fs, i) ==> b[i] == a[i])
    && (forall f :: f in fs ==> f + 4 <= |a| && GetU32(b, f) == AgedTTL(GetU32(a, f), s))
  }

  lemma {:induction false} SkipLocal(a: seq<Byte>, b: seq<Byte>, off: nat)
    requires |a| == |b| && forall i :: off <= i < |a| ==> a[i] == b[i]
    ensures SkipName(a, off) == SkipName(b, off)
    decreases |a| - off
  {
    if off < |a| && 0 < a[off] < 0xC0 && off + 1 + a[off] <= |a| {
      SkipLocal(a, b, off + 1 + a[off]);
    }
  }

  lemma {:induction false} FieldsLocal(a: seq<Byte>, b: seq<Byte>, off: nat, n: nat)
    requires |a| == |b| && forall i :: off <= i < |a| ==> a[i] == b[i]
    ensures FieldsFrom(a, off, n) == FieldsFrom(b, off, n)
    decreases n
  {
    hide SkipName, GetU16, OwnField;
    if n > 0 {
      SkipLocal(a, b, off);
      var o := SkipName(a, off);
      if o + 10 <= |a| {
        SameU16(a, b, o);
        SameU16(a, b, o + 8);
        SameOwn(a, b, o);
        FieldsLocal(a, b, o + 10 + GetU16(a, o + 8), n - 1);
      }
    }
  }

  lemma AgeRecordField(b: seq<Byte>, o: nat, s: U32)
    requires o + 10 <= |b|
    ensures AgedAt(b, AgeRecord(b, o, s), OwnField(b, o), s)
    ensures GetU16(AgeRecord(b, o, s), o + 8) == GetU16(b, o + 8)
  {
    hide AgedTTL, PutU32, GetU32;
    if GetU16(b, o) != TYPE_OPT {
      GetPutU32(AgeRecord(b, o, s), o + 4, AgedTTL(GetU32(b, o + 4), s));
      assert (o + 4) in OwnField(b, o);
    }
  }

  /** Aging some fields and then others behind them ages all of them. */
  lemma AgedAtBoth(b: seq<Byte>, m: seq<Byte>, r: seq<Byte>, own: seq<nat>, rest: seq<nat>, next: nat, s: U32)
    requires forall f :: f in own ==> f + 4 <= next
    requires forall f :: f in rest ==> next <= f
    requires AgedAt(b, m, own, s) && AgedAt(m, r, rest, s)
    ensures AgedAt(b, r, own + rest, s)
  {
    hide AgedTTL, GetU32;
    var fs := own + rest;
    forall i | 0 <= i < |b| && !InField(fs, i) ensures r[i] == b[i] {
      assert forall f :: f in own || f in rest ==> f in fs;
      assert !InField(own, i) && !InField(rest, i);
    }
    forall f | f in fs ensures f + 4 <= |b| && GetU32(r, f) == AgedTTL(GetU32(b, f), s) {
      if f in rest {
        Outside(own, f, next, false);
        SameU32(b, m, f);
      } else {
        Outside(rest, f, next, true);
        SameU32(m, r, f);
      }
    }
  }

  /** A field on the other side of `next` than all of `fs` shares no byte with them. */
  lemma Outside(fs: seq<nat>, f: nat, next: nat, below: bool)
    requires if below then f + 4 <= next else next <= f
    requires forall g :: g in fs ==> if below then next <= g else g + 4 <= next
    ensures !InField(fs, f) && !InField(fs, f + 1) && !InField(fs, f + 2) && !InField(fs, f + 3)
  {
  }

  lemma SameU32(a: seq<Byte>, b: seq<Byte>, f: nat)
    requires |a| == |b| && f + 4 <= |a|
    requires a[f] == b[f] && a[f + 1] == b[f + 1] && a[f + 2] == b[f + 2] && a[f + 3] == b[f + 3]
    ensures GetU32(a, f) == GetU32(b, f)
  {
  }

  /** A walk that gets through has aged exactly the TTL fields. */
  lemma {:induction false} AgeRecordsExact(b: seq<Byte>, off: nat, n: nat, s: U32)
    requires AgeRecords(b, off, n, s).Ok?
    ensures AgedAt(b, AgeRecords(b, off, n, s).value, FieldsFrom(b, off, n), s)
    decreases n
  {
    hide AgedAt, LabelsFrom, SkipName, AgeRecord, Join, GetU16, OwnField;
    if n == 0 {
      AgedAtNothing(b, s);
    } else {
      SkipAgrees(b, off, MAX_HOPS);
      var o := Decode(b, off).value.1;
      var m := AgeRecord(b, o, s);
      AgeRecordField(b, o, s);
      var next := o + 10 + GetU16(m, o + 8);
      AgeRecordsExact(m, next, n - 1, s);
      UnchangedBehind(b, m, OwnField(b, o), next, s);
      FieldsLocal(b, m, next, n - 1);
      AgedAtBoth(b, m, AgeRecords(b, off, n, s).value, OwnField(b, o), FieldsFrom(m, next, n - 1), next, s);
    }
  }

  lemma UnchangedBehind(a: seq<Byte>, b: seq<Byte>, fs: seq<nat>, next: nat, s: U32)
    requires AgedAt(a, b, fs, s) && forall f :: f in fs ==> f + 4 <= next
    ensures |a| == |b| && forall i :: next <= i < |a| ==> a[i] == b[i]
  {
    hide GetU32, AgedTTL;
  }

  lemma AgedAtNothing(b: seq<Byte>, s: U32)
    ensures AgedAt(b, b, [], s)
  {
  }

  lemma {:induction false} SkipQuestionsEnd(b: seq<Byte>, off: nat, n: nat)
    requires SkipQuestions(b, off, n).Ok?
    ensures QuestionEnd(b, off, n) == SkipQuestions(b, off, n).value
    decreases n
  {
    hide LabelsFrom, SkipName, Join;
    if n > 0 {
      SkipAgrees(b, off, MAX_HOPS);
      SkipQuestionsEnd(b, Decode(b, off).value.1 + 4, n - 1);
    }
  }

  /** For every byte string: adjustTTLs either changes nothing or ages exactly the TTL fields. */
  lemma AgedExact(resp: seq<Byte>, age: int)
    ensures Aged(resp, age) == resp
         || (age > 0 && AgedAt(resp, Aged(resp, age), MessageFields(resp), WholeSeconds(age)))
  {
    hide SkipQuestions, AgeRecords, FieldsFrom, QuestionEnd, AgedAt, WholeSeconds, GetU16;
    if |resp| >= HEADER_SIZE && age > 0 && AgeMessage(resp, WholeSeconds(age)).Ok? {
      var qd := GetU16(resp, 4);
      SkipQuestionsEnd(resp, HEADER_SIZE, qd);
      AgeRecordsExact(resp, SkipQuestions(resp, HEADER_SIZE, qd).value, RecordCount(resp), WholeSeconds(age));
    }
  }

  // ---------------------------------------------------------------- names that stay clear of TTL fields

  /** Decoding the name at `off` looks at byte `i`. */
  predicate Reads(msg: seq<Byte>, off: nat, hops: nat, i: nat)
    decreases hops, |msg| - off
  {
    off < |msg| &&
    if msg[off] == 0 then i == off
    else if msg[off] >= 0xC0 then
      i == off || i == off + 1
      || (off + 1 < |msg| && hops > 0 && Reads(msg, Pointer(msg[off], msg[off + 1]), hops - 1, i))
    else if msg[off] >= 0x40 || off + 1 + msg[off] > |msg| then i == off
    else off <= i < off + 1 + msg[off] || Reads(msg, off + 1 + msg[off], hops, i)
  }

  lemma {:induction false} SameName(a: seq<Byte>, b: seq<Byte>, off: nat, hops: nat)
    requires |a| == |b| && forall i :: 0 <= i < |a| && Reads(a, off, hops, i) ==> a[i] == b[i]
    ensures LabelsFrom(b, off, hops) == LabelsFrom(a, off, hops)
    decreases hops, |a| - off
  {
    if off < |a| {
      assert Reads(a, off, hops, off);
      if a[off] >= 0xC0 {
        if off + 1 < |a| && hops > 0 {
          assert Reads(a, off, hops, off + 1);
          SameName(a, b, Pointer(a[off], a[off + 1]), hops - 1);
        }
      } else if 0 < a[off] < 0x40 && off + 1 + a[off] <= |a| {
        SameName(a, b, off + 1 + a[off], hops);
        SameLabel(a, b, off, hops);
      }
    }
  }

  lemma SameLabel(a: seq<Byte>, b: seq<Byte>, off: nat, hops: nat)
    requires |a| == |b| && forall i :: 0 <= i < |a| && Reads(a, off, hops, i) ==> a[i] == b[i]
    requires off < |a| && 0 < a[off] < 0x40 && off + 1 + a[off] <= |a|
    ensures a[off + 1..off + 1 + a[off]] == b[off + 1..off + 1 + a[off]]
  {
    assert forall i :: off <= i < off + 1 + a[off] ==> Reads(a, off, hops, i);
  }

  /** The name at `off` is decoded without reading any TTL field. */
  ghost predicate NameClear(msg: seq<Byte>, off: nat, fs: seq<nat>) {
    forall i: nat :: Reads(msg, off, MAX_HOPS, i) ==> !InField(fs, i)
  }

  /** Where the names of `n` questions start. */
  function QuestionNames(msg: seq<Byte>, off: nat, n: nat): set<nat>
    decreases n
  {
    if n == 0 then {} else {off} + QuestionNames(msg, SkipName(msg, off) + 4, n - 1)
  }

  /** Where the names of `n` records start: owners, and the names in CNAME, NS and PTR RDATA. */
  function RecordNames(msg: seq<Byte>, off: nat, n: nat): set<nat>
    decreases n
  {
    if n == 0 then {}
    else
      var o := SkipName(msg, off);
      if o + 10 > |msg| then {off}
      else
        {off} + (if IsNameType(GetU16(msg, o)) then {o + 10} else {})
        + RecordNames(msg, o + 10 + GetU16(msg, o + 8), n - 1)
  }

  ghost predicate QuestionsClear(msg: seq<Byte>, off: nat, n: nat, fs: seq<nat>) {
    forall o :: o in QuestionNames(msg, off, n) ==> NameClear(msg, o, fs)
  }

  ghost predicate RecordsClear(msg: seq<Byte>, off: nat, n: nat, fs: seq<nat>) {
    forall o :: o in RecordNames(msg, off, n) ==> NameClear(msg, o, fs)
  }

  lemma ClearStep(msg: seq<Byte>, off: nat, n: nat, fs: seq<nat>)
    requires n > 0 && RecordsClear(msg, off, n, fs)
    ensures NameClear(msg, off, fs)
    ensures var o := SkipName(msg, off);
            o + 10 <= |msg| ==>
              && (IsNameType(GetU16(msg, o)) ==> NameClear(msg, o + 10, fs))
              && RecordsClear(msg, o + 10 + GetU16(msg, o + 8), n - 1, fs)
  {
    hide NameClear, SkipName, GetU16;
  }

  /** No pointer of the message leads into a TTL field. */
  ghost predicate NamesClear(msg: seq<Byte>)
    requires |msg| >= HEADER_SIZE
  {
    var fs := MessageFields(msg);
    && QuestionsClear(msg, HEADER_SIZE, GetU16(msg, 4), fs)
    && RecordsClear(msg, QuestionEnd(msg, HEADER_SIZE, GetU16(msg, 4)), RecordCount(msg), fs)
  }

  /** Equal outside the fields. */
  predicate Agree(a: seq<Byte>, b: seq<Byte>, fs: seq<nat>) {
    |a| == |b| && forall i :: 0 <= i < |a| && !InField(fs, i) ==> b[i] == a[i]
  }

  lemma SameDecode(a: seq<Byte>, b: seq<Byte>, off: nat, fs: seq<nat>)
    requires Agree(a, b, fs) && NameClear(a, off, fs)
    ensures Decode(b, off) == Decode(a, off)
  {
    hide LabelsFrom, Reads, InField, Join;
    SameName(a, b, off, MAX_HOPS);
  }

  /** The fields of the records from `off` on, behind fields that end before `off`. */
  predicate Ahead(fs: seq<nat>, before: seq<nat>, rest: seq<nat>, off: nat) {
    fs == before + rest && (forall f :: f in before ==> f + 4 <= off) && (forall f :: f in rest ==> off <= f)
  }

  // ---------------------------------------------------------------- the walk gets through

  lemma {:induction false} AgingSucceeds(msg: seq<Byte>, b: seq<Byte>, off: nat, n: nat, fs: seq<nat>,
                                         before: seq<nat>, s: U32)
    requires RecordsAt(msg, off, n).Ok? && RecordsClear(msg, off, n, fs)
    requires Ahead(fs, before, FieldsFrom(msg, off, n), off)
    requires Agree(msg, b, fs) && forall i :: off <= i < |msg| ==> b[i] == msg[i]
    ensures AgeRecords(b, off, n, s).Ok?
    decreases n
  {
    hide LabelsFrom, NameClear, AgeRecord, Join, InField, SkipName, FieldsFrom, RDataAt, GetU16, OwnField;
    hide AgedAt, Ahead;
    hide RecordsClear;
    if n > 0 {
      ClearStep(msg, off, n, fs);
      SameDecode(msg, b, off, fs);
      SkipAgrees(msg, off, MAX_HOPS);
      var o := Decode(msg, off).value.1;
      SameU16(msg, b, o);
      SameU16(msg, b, o + 8);
      SameOwn(msg, b, o);
      AgeRecordField(b, o, s);
      var m := AgeRecord(b, o, s);
      var next := o + 10 + GetU16(msg, o + 8);
      UnchangedBehind(b, m, OwnField(b, o), o + 8, s);
      AheadStep(msg, off, n, fs, before);
      StillAgree(msg, b, m, OwnField(b, o), fs, s);
      AgingSucceeds(msg, m, next, n - 1, fs, before + OwnField(msg, o), s);
    }
  }

  lemma SameU16(a: seq<Byte>, b: seq<Byte>, o: nat)
    requires |a| == |b| && o + 2 <= |a| && a[o] == b[o] && a[o + 1] == b[o + 1]
    ensures GetU16(a, o) == GetU16(b, o)
  {
  }

  lemma SameOwn(a: seq<Byte>, b: seq<Byte>, o: nat)
    requires |a| == |b| && o + 10 <= |a| && GetU16(a, o) == GetU16(b, o)
    ensures OwnField(a, o) == OwnField(b, o)
  {
  }

  lemma AheadStep(msg: seq<Byte>, off: nat, n: nat, fs: seq<nat>, before: seq<nat>)
    requires n > 0 && Ahead(fs, before, FieldsFrom(msg, off, n), off)
    requires SkipName(msg, off) + 10 <= |msg|
    ensures var o := SkipName(msg, off);
            var next := o + 10 + GetU16(msg, o + 8);
            && OwnField(msg, o) <= fs[|before|..]
            && (forall f :: f in OwnField(msg, o) ==> f in fs)
            && Ahead(fs, before + OwnField(msg, o), FieldsFrom(msg, next, n - 1), next)
  {
    hide SkipName, GetU16, OwnField;
    var o := SkipName(msg, off);
    var next := o + 10 + GetU16(msg, o + 8);
    var own, rest := OwnField(msg, o), FieldsFrom(msg, next, n - 1);
    assert fs[|before|..] == own + rest;
    assert before + (own + rest) == (before + own) + rest;
  }

  lemma StillAgree(msg: seq<Byte>, b: seq<Byte>, m: seq<Byte>, own: seq<nat>, fs: seq<nat>, s: U32)
    requires Agree(msg, b, fs) && AgedAt(b, m, own, s)
    requires forall f :: f in own ==> f in fs
    ensures Agree(msg, m, fs)
  {
    hide GetU32, AgedTTL;
    forall i | 0 <= i < |msg| && !InField(fs, i) ensures m[i] == msg[i] {
      assert !InField(own, i);
    }
  }

  // ---------------------------------------------------------------- the aged bytes parse to the aged message

  /** Within one record only its own TTL field changes. */
  lemma RecordBytes(msg: seq<Byte>, r: seq<Byte>, fs: seq<nat>, before: seq<nat>, own: seq<nat>,
                    rest: seq<nat>, off: nat, next: nat, s: U32)
    requires AgedAt(msg, r, fs, s) && Ahead(fs, before, own + rest, off)
    requires forall f :: f in rest ==> next <= f
    ensures forall i :: off <= i < next && i < |msg| && !InField(own, i) ==> r[i] == msg[i]
  {
    hide GetU32, AgedTTL;
    forall i | off <= i < next && i < |msg| && !InField(own, i) ensures r[i] == msg[i] {
      assert !InField(fs, i) by {
        assert forall f :: f in fs ==> f in before || f in own || f in rest;
      }
    }
  }

  lemma RDataAged(msg: seq<Byte>, r: seq<Byte>, off: nat, rdlen: nat, t: U16, h: RRHeader, s: U32)
    requires |msg| == |r| && off + rdlen <= |msg|
    requires forall i :: off <= i < off + rdlen ==> r[i] == msg[i]
    requires IsNameType(t) ==> Decode(r, off) == Decode(msg, off)
    requires RDataAt(msg, off, rdlen, t, h).Ok?
    ensures RDataAt(r, off, rdlen, t, h.(ttl := if t == TYPE_OPT then h.ttl else AgedTTL(h.ttl, s)))
         == Ok(AgedRecord(RDataAt(msg, off, rdlen, t, h).value, s))
  {
    hide Decode, AgedTTL, To4;
    assert r[off..off + rdlen] == msg[off..off + rdlen];
  }

  /** The fixed part at `o`, read from the aged bytes. */
  lemma FixedAged(msg: seq<Byte>, r: seq<Byte>, o: nat, fs: seq<nat>, s: U32)
    requires AgedAt(msg, r, fs, s) && o + 10 <= |msg|
    requires forall f :: f in OwnField(msg, o) ==> f in fs
    requires forall i :: o <= i < o + 10 && !InField(OwnField(msg, o), i) ==> r[i] == msg[i]
    ensures GetU16(r, o) == GetU16(msg, o) && GetU16(r, o + 2) == GetU16(msg, o + 2)
    ensures GetU16(r, o + 8) == GetU16(msg, o + 8)
    ensures GetU32(r, o + 4)
         == (if GetU16(msg, o) == TYPE_OPT then GetU32(msg, o + 4) else AgedTTL(GetU32(msg, o + 4), s))
  {
    hide GetU32, AgedTTL;
    var own := OwnField(msg, o);
    if GetU16(msg, o) == TYPE_OPT {
      assert own == [];
      SameU32(msg, r, o + 4);
    } else {
      assert (o + 4) in own;
    }
    assert !InField(own, o) && !InField(own, o + 1) && !InField(own, o + 2) && !InField(own, o + 3);
    assert !InField(own, o + 8) && !InField(own, o + 9);
  }

  lemma ParseAgedOne(msg: seq<Byte>, r: seq<Byte>, off: nat, n: nat, fs: seq<nat>, before: seq<nat>, s: U32)
    requires n > 0 && RecordAt(msg, off).Ok? && RecordsClear(msg, off, n, fs)
    requires Ahead(fs, before, FieldsFrom(msg, off, n), off) && AgedAt(msg, r, fs, s)
    ensures RecordAt(r, off) == Ok((AgedRecord(RecordAt(msg, off).value.0, s), RecordAt(msg, off).value.1))
  {
    hide LabelsFrom, Join, SkipName, NameClear, GetU16, GetU32, AgedTTL, AgedRecord, AgedAt, Ahead, OwnField;
    hide RDataAt, InField;
    hide RecordsClear;
    ClearStep(msg, off, n, fs);
    SkipAgrees(msg, off, MAX_HOPS);
    AgreeOutside(msg, r, fs, s);
    SameDecode(msg, r, off, fs);
    var o := Decode(msg, off).value.1;
    var t, rdlen := GetU16(msg, o), GetU16(msg, o + 8);
    var next := o + 10 + rdlen;
    var own, rest := OwnField(msg, o), FieldsFrom(msg, next, n - 1);
    assert FieldsFrom(msg, off, n) == own + rest;
    RecordBytes(msg, r, fs, before, own, rest, off, next, s);
    AheadStep(msg, off, n, fs, before);
    FixedAged(msg, r, o, fs, s);
    if IsNameType(t) {
      SameDecode(msg, r, o + 10, fs);
    }
    NotInOwn(msg, o, next);
    RDataAged(msg, r, o + 10, rdlen, t, RRHeader(Decode(msg, off).value.0, GetU16(msg, o + 2), GetU32(msg, o + 4)), s);
  }

  lemma NotInOwn(msg: seq<Byte>, o: nat, next: nat)
    requires o + 10 <= |msg|
    ensures forall i :: o + 10 <= i < next ==> !InField(OwnField(msg, o), i)
  {
  }

  lemma AgreeOutside(msg: seq<Byte>, r: seq<Byte>, fs: seq<nat>, s: U32)
    requires AgedAt(msg, r, fs, s)
    ensures Agree(msg, r, fs)
  {
  }

  lemma {:induction false} ParseAgedMany(msg: seq<Byte>, r: seq<Byte>, off: nat, n: nat, fs: seq<nat>,
                                         before: seq<nat>, s: U32)
    requires RecordsAt(msg, off, n).Ok? && RecordsClear(msg, off, n, fs)
    requires Ahead(fs, before, FieldsFrom(msg, off, n), off) && AgedAt(msg, r, fs, s)
    ensures RecordsAt(r, off, n) == Ok((AgedRecords(RecordsAt(msg, off, n).value.0, s), RecordsAt(msg, off, n).value.1))
    decreases n
  {
    hide NameClear, AgedAt, Ahead, OwnField, AgedRecord, FieldsFrom, InField, SkipName, RecordAt;
    hide RecordsClear;
    if n > 0 {
      ClearStep(msg, off, n, fs);
      ParseAgedOne(msg, r, off, n, fs, before, s);
      RecordEnd(msg, off);
      AheadStep(msg, off, n, fs, before);
      var o := SkipName(msg, off);
      var next := RecordAt(msg, off).value.1;
      ParseAgedMany(msg, r, next, n - 1, fs, before + OwnField(msg, o), s);
      var rs := RecordsAt(msg, off, n).value.0;
      assert rs[1..] == RecordsAt(msg, next, n - 1).value.0;
    }
  }

  /** A parsed record ends where the skipping walk says. */
  lemma RecordEnd(msg: seq<Byte>, off: nat)
    requires RecordAt(msg, off).Ok?
    ensures var o := SkipName(msg, off);
            o + 10 <= |msg| && RecordAt(msg, off).value.1 == o + 10 + GetU16(msg, o + 8)
  {
    hide LabelsFrom, Join, SkipName, GetU16, RDataAt;
    SkipAgrees(msg, off, MAX_HOPS);
  }

  lemma {:induction false} QuestionsAged(msg: seq<Byte>, r: seq<Byte>, off: nat, n: nat, fs: seq<nat>)
    requires QuestionsAt(msg, off, n).Ok? && QuestionsClear(msg, off, n, fs) && Agree(msg, r, fs)
    requires forall f :: f in fs ==> QuestionsAt(msg, off, n).value.1 <= f
    ensures QuestionsAt(r, off, n) == QuestionsAt(msg, off, n)
    decreases n
  {
    hide LabelsFrom, Join, SkipName, NameClear, GetU16, NormalizeName;
    if n > 0 {
      SkipAgrees(msg, off, MAX_HOPS);
      SameDecode(msg, r, off, fs);
      var o := Decode(msg, off).value.1;
      Outside(fs, o, o + 4, true);
      SameU16(msg, r, o);
      SameU16(msg, r, o + 2);
      QuestionsAged(msg, r, o + 4, n - 1, fs);
    }
  }

  /** Records read in two batches are the records read in one. */
  lemma {:induction false} RecordsAtSum(msg: seq<Byte>, off: nat, a: nat, b: nat)
    ensures RecordsAt(msg, off, a + b)
         == (if RecordsAt(msg, off, a).Err? then Err
             else Behind(RecordsAt(msg, off, a).value.0, RecordsAt(msg, RecordsAt(msg, off, a).value.1, b)))
    decreases a
  {
    hide RecordAt;
    if a == 0 {
      BehindNothing(RecordsAt(msg, off, b));
    } else if RecordAt(msg, off).Ok? {
      var (r, o) := RecordAt(msg, off).value;
      RecordsAtSum(msg, o, a - 1, b);
      if RecordsAt(msg, o, a - 1).Ok? {
        BehindBehind([r], RecordsAt(msg, o, a - 1).value.0, RecordsAt(msg, RecordsAt(msg, o, a - 1).value.1, b));
      }
    }
  }

  lemma SectionsRead(msg: seq<Byte>, o1: nat, h: Header, qs: seq<Question>)
    requires HeaderAt(msg) == Ok(h) && QuestionsAt(msg, HEADER_SIZE, h.qd) == Ok((qs, o1))
    ensures PacketAt(msg).Ok? <==> RecordsAt(msg, o1, h.an + h.ns + h.ar).Ok?
    ensures PacketAt(msg).Ok? ==>
              var (rs, end) := RecordsAt(msg, o1, h.an + h.ns + h.ar).value;
              PacketAt(msg).value == (Packet(h, qs, rs[..h.an], rs[h.an..h.an + h.ns], rs[h.an + h.ns..]), end)
  {
    hide RecordsAt, QuestionsAt, HeaderAt;
    var a: nat, b: nat, c: nat := h.an, h.ns, h.ar;
    RecordsAtSum(msg, o1, a + b, c);
    RecordsAtSum(msg, o1, a, b);
    if PacketAt(msg).Ok? {
      var p := PacketAt(msg).value.0;
      var rs := p.answers + p.authorities + p.additionals;
      assert rs == RecordsAt(msg, o1, a + b + c).value.0;
      assert rs[..a] == p.answers && rs[a..a + b] == p.authorities && rs[a + b..] == p.additionals;
    }
  }

  lemma AgedRecordsSlice(rs: seq<Record>, i: nat, j: nat, s: U32)
    requires i <= j <= |rs|
    ensures AgedRecords(rs, s)[i..j] == AgedRecords(rs[i..j], s)
  {
    hide AgedRecord;
  }

  /** For every message that parses and whose pointers stay clear of TTL fields, compressed or
      not: what adjustTTLs returns parses to the message with its TTLs aged. */
  lemma AgingParses(msg: seq<Byte>, p: Packet, end: nat, age: int)
    requires PacketAt(msg) == Ok((p, end)) && |msg| >= HEADER_SIZE && NamesClear(msg)
    requires age > 0 && WholeSeconds(age) > 0
    ensures PacketAt(Aged(msg, age)) == Ok((AgedPacket(p, WholeSeconds(age)), end))
    ensures AgedAt(msg, Aged(msg, age), MessageFields(msg), WholeSeconds(age))
  {
    hide RecordsAt, QuestionsAt, FieldsFrom, RecordsClear, QuestionsClear, AgedAt, QuestionEnd, AgeRecords;
    hide SkipQuestions, WholeSeconds, AgedRecords, GetU16, Agree, InField;
    var s := WholeSeconds(age);
    var h := HeaderAt(msg).value;
    var (qs, o1) := QuestionsAt(msg, HEADER_SIZE, h.qd).value;
    SectionsRead(msg, o1, h, qs);
    QuestionEndAgrees(msg, HEADER_SIZE, h.qd);
    SkipQuestionsAgrees(msg, HEADER_SIZE, h.qd);
    var n := RecordCount(msg);
    var fs := MessageFields(msg);
    assert Ahead(fs, [], fs, o1);
    AgreeSelf(msg, fs);
    AgingSucceeds(msg, msg, o1, n, fs, [], s);
    var r := AgeRecords(msg, o1, n, s).value;
    AgeRecordsExact(msg, o1, n, s);
    ParseAgedMany(msg, r, o1, n, fs, [], s);
    AgreeOutside(msg, r, fs, s);
    QuestionsAged(msg, r, HEADER_SIZE, h.qd, fs);
    HeaderAged(msg, r, fs);
    SectionsRead(r, o1, h, qs);
    var rs := RecordsAt(msg, o1, n).value.0;
    AgedRecordsSlice(rs, 0, h.an, s);
    AgedRecordsSlice(rs, h.an, h.an + h.ns, s);
    AgedRecordsSlice(rs, h.an + h.ns, |rs|, s);
    var a := AgedRecords(rs, s);
    assert a[..h.an] == a[0..h.an] && rs[..h.an] == rs[0..h.an];
    assert a[h.an + h.ns..] == a[h.an + h.ns..|rs|] && rs[h.an + h.ns..] == rs[h.an + h.ns..|rs|];
  }

  lemma AgreeSelf(msg: seq<Byte>, fs: seq<nat>)
    ensures Agree(msg, msg, fs)
  {
  }

  lemma HeaderAged(msg: seq<Byte>, r: seq<Byte>, fs: seq<nat>)
    requires Agree(msg, r, fs) && forall f :: f in fs ==> HEADER_SIZE <= f
    ensures HeaderAt(r) == HeaderAt(msg)
  {
    assert forall i :: 0 <= i < HEADER_SIZE ==> !InField(fs, i);
  }

  // ---------------------------------------------------------------- printed messages are clear

  /** A name printed without pointers is decoded from its own bytes. */
  lemma {:induction false} RunReads(msg: seq<Byte>, off: nat, ls: seq<Text>, hops: nat, i: nat)
    requires LabelsOk(ls) && At(msg, off, LabelsWire(ls) + [0]) && Reads(msg, off, hops, i)
    ensures off <= i < off + |LabelsWire(ls)| + 1
    decreases ls
  {
    hide At, LabelOk, LabelWire;
    if ls == [] {
      assert LabelsWire(ls) + [0] == [0];
      AtByte(msg, off, 0);
    } else {
      var rest := LabelsWire(ls[1..]) + [0];
      assert LabelsWire(ls) + [0] == LabelWire(ls[0]) + rest;
      AtAppend(msg, off, LabelWire(ls[0]), rest);
      LengthByte(msg, off, ls[0]);
      if i >= off + 1 + |ls[0]| || i < off {
        RunReads(msg, off + 1 + |ls[0]|, ls[1..], hops, i);
      }
    }
  }

  lemma LengthByte(msg: seq<Byte>, off: nat, lab: Text)
    requires LabelOk(lab) && At(msg, off, LabelWire(lab))
    ensures off < |msg| && msg[off] == |lab| && 0 < |lab| < 0x40 && off + 1 + |lab| <= |msg|
  {
    AtAppend(msg, off, [|lab|], lab);
    AtByte(msg, off, |lab|);
  }

  /** No field shares a byte with `from` up to `to`. */
  predicate FreeOf(fs: seq<nat>, from: nat, to: nat) {
    forall f :: f in fs ==> f + 4 <= from || to <= f
  }

  lemma PrintedNameClear(domain: Text, msg: seq<Byte>, off: nat, fs: seq<nat>)
    requires Encode(domain).Ok? && At(msg, off, Encode(domain).value)
    requires FreeOf(fs, off, off + |Encode(domain).value|)
    ensures NameClear(msg, off, fs)
  {
    hide At, LabelsOk, LabelsWire, Split, Reads, TrimDots;
    var t := TrimDots(domain);
    var ls := if t == [] then [] else Split(t);
    assert LabelsOk(ls) && LabelsWire(ls) + [0] == Encode(domain).value by { NoLabels(); }
    forall i: nat | Reads(msg, off, MAX_HOPS, i) ensures !InField(fs, i) {
      RunReads(msg, off, ls, MAX_HOPS, i);
    }
  }

  lemma NoLabels()
    ensures LabelsOk([]) && LabelsWire([]) + [0] == [0]
  {
  }

  lemma PrintedOwnerClear(r: Record, msg: seq<Byte>, off: nat, fs: seq<nat>)
    requires OwnerWire(r).Ok? && At(msg, off, OwnerWire(r).value)
    requires FreeOf(fs, off, off + |OwnerWire(r).value|)
    ensures NameClear(msg, off, fs)
  {
    hide Encode, NameClear, At, TypeOf;
    if TypeOf(r) == TYPE_OPT {
      RootEncoded();
      PrintedNameClear([DOT], msg, off, fs);
    } else {
      PrintedNameClear(r.h.name, msg, off, fs);
    }
  }

  lemma RootEncoded()
    ensures Encode([DOT]) == Ok([0])
  {
    assert [DOT][..0] == [];
  }

  /** One printed record: where it ends, and that its names are clear of all fields. */
  lemma PrintedRecordClear(r: Record, msg: seq<Byte>, off: nat, n: nat, fs: seq<nat>, before: seq<nat>)
    requires n > 0 && KindOk(r) && RecordWire(r).Ok? && At(msg, off, RecordWire(r).value)
    requires Ahead(fs, before, FieldsFrom(msg, off, n), off)
    ensures var o := SkipName(msg, off);
            && o + 10 <= |msg| && o + 10 + GetU16(msg, o + 8) == off + |RecordWire(r).value|
            && NameClear(msg, off, fs)
            && (IsNameType(GetU16(msg, o)) ==> NameClear(msg, o + 10, fs))
  {
    hide At, Decode, LabelsFrom, Encode, OwnerWire, RDataWire, NameClear, SkipName, OwnField, GetU16;
    hide CanonRecord, FixedWire, TypeOf;
    RecordParts(r, msg, off);
    SkipDecoded(msg, off);
    var owner, rdata := OwnerWire(r).value, RDataWire(r).value;
    var fixed := FixedWire(TypeOf(r), r.h.rrClass, r.h.ttl, |rdata|);
    AtAppend(msg, off, owner + fixed, rdata);
    AtAppend(msg, off, owner, fixed);
    var o := off + |owner|;
    AheadStep(msg, off, n, fs, before);
    FieldsApart(msg, off, o, fs, before, FieldsFrom(msg, o + 10 + |rdata|, n - 1), o + 10 + |rdata|);
    PrintedOwnerClear(r, msg, off, fs);
    if IsNameType(TypeOf(r)) {
      NameRData(r);
      PrintedNameClear(r.target, msg, o + 10, fs);
    }
  }

  lemma SkipDecoded(msg: seq<Byte>, off: nat)
    requires Decode(msg, off).Ok?
    ensures SkipName(msg, off) == Decode(msg, off).value.1
  {
    SkipAgrees(msg, off, MAX_HOPS);
  }

  lemma NameRData(r: Record)
    requires KindOk(r) && IsNameType(TypeOf(r))
    ensures r.NameRecord? && RDataWire(r) == Encode(r.target)
  {
  }

  lemma FieldsApart(msg: seq<Byte>, off: nat, o: nat, fs: seq<nat>, before: seq<nat>, rest: seq<nat>, next: nat)
    requires off <= o && o + 10 <= next && o + 10 <= |msg|
    requires Ahead(fs, before, OwnField(msg, o) + rest, off) && forall f :: f in rest ==> next <= f
    ensures FreeOf(fs, off, o) && FreeOf(fs, o + 10, next)
  {
    assert forall f :: f in fs ==> f in before || f in OwnField(msg, o) || f in rest;
  }

  lemma {:induction false} PrintedRecordsClear(rs: seq<Record>, msg: seq<Byte>, off: nat, fs: seq<nat>,
                                               before: seq<nat>)
    requires KindsOk(rs) && RecordsWire(rs).Ok? && At(msg, off, RecordsWire(rs).value)
    requires Ahead(fs, before, FieldsFrom(msg, off, |rs|), off)
    ensures RecordsClear(msg, off, |rs|, fs)
    decreases rs
  {
    hide At, RecordWire, NameClear, SkipName, FieldsFrom, Ahead, OwnField, GetU16, KindOk;
    if rs != [] {
      AtAppend(msg, off, RecordWire(rs[0]).value, RecordsWire(rs[1..]).value);
      PrintedRecordClear(rs[0], msg, off, |rs|, fs, before);
      AheadStep(msg, off, |rs|, fs, before);
      var o := SkipName(msg, off);
      PrintedRecordsClear(rs[1..], msg, o + 10 + GetU16(msg, o + 8), fs, before + OwnField(msg, o));
    }
  }

  lemma {:induction false} PrintedQuestionsClear(qs: seq<Question>, msg: seq<Byte>, off: nat, fs: seq<nat>)
    requires QuestionsWire(qs).Ok? && At(msg, off, QuestionsWire(qs).value)
    requires FreeOf(fs, off, off + |QuestionsWire(qs).value|)
    ensures QuestionsClear(msg, off, |qs|, fs)
    decreases qs
  {
    hide At, Encode, Decode, NameClear, SkipName, PutU16;
    if qs != [] {
      var name, rest := Encode(qs[0].name).value, QuestionsWire(qs[1..]).value;
      var w := QuestionWire(qs[0]).value;
      AtAppend(msg, off, w, rest);
      AtAppend(msg, off, name + PutU16(qs[0].qtype), PutU16(qs[0].qclass));
      AtAppend(msg, off, name, PutU16(qs[0].qtype));
      DecodeEncode(qs[0].name, msg, off);
      SkipDecoded(msg, off);
      PrintedNameClear(qs[0].name, msg, off, fs);
      PrintedQuestionsClear(qs[1..], msg, off + |w|, fs);
    }
  }

  /** Every printed message is clear, so what holds for clear messages holds for all of them. */
  lemma PrintedClear(p: Packet)
    requires Printable(p)
    ensures |PacketWire(p).value| >= HEADER_SIZE && NamesClear(PacketWire(p).value)
  {
    hide At, RecordsWire, QuestionsWire, HeaderWire, QuestionsAt, QuestionEnd, FieldsFrom, QuestionsClear;
    hide RecordsClear, CanonQuestions, KindsOk;
    var msg := PacketWire(p).value;
    var hw, qw, rw := HeaderWire(CountedHeader(p)), QuestionsWire(p.questions).value, RecordsWire(Records(p)).value;
    AtSelf(msg);
    assert msg == hw + qw + rw;
    AtAppend(msg, 0, hw + qw, rw);
    AtAppend(msg, 0, hw, qw);
    HeaderRoundTrip(CountedHeader(p), msg);
    QuestionsRoundTrip(p.questions, msg, HEADER_SIZE);
    QuestionEndAgrees(msg, HEADER_SIZE, |p.questions|);
    var fs, o1 := MessageFields(msg), HEADER_SIZE + |qw|;
    assert fs == FieldsFrom(msg, o1, |Records(p)|);
    assert [] + fs == fs;
    PrintedQuestionsClear(p.questions, msg, HEADER_SIZE, fs);
    PrintedRecordsClear(Records(p), msg, o1, fs, []);
  }
}
