/** Domain names on the wire: internal/dns/codec.go. */
module Names {
  import opened Wire

  /** A Go string is a byte string. */
  type Text = seq<Byte>

  const DOT: Byte := 46
  const MAX_HOPS := 20

  // ---------------------------------------------------------------- labels and dotted text

  /** strings.Split(s, "."). */
  function Split(s: Text): (ls: seq<Text>)
    ensures |ls| >= 1
  {
    if s == [] then [[]]
    else
      var rest := Split(s[1..]);
      if s[0] == DOT then [[]] + rest else [[s[0]] + rest[0]] + rest[1..]
  }

  function Join(ls: seq<Text>): Text {
    if ls == [] then []
    else if |ls| == 1 then ls[0]
    else ls[0] + [DOT] + Join(ls[1..])
  }

  predicate NoDot(l: Text) { DOT !in l }

  lemma {:induction false} SplitDotless(s: Text)
    requires NoDot(s)
    ensures Split(s) == [s]
  {
    if s != [] {
      SplitDotless(s[1..]);
      assert [s[0]] + s[1..] == s;
    }
  }

  lemma {:induction false} SplitAtDot(a: Text, b: Text)
    requires NoDot(a)
    ensures Split(a + [DOT] + b) == [a] + Split(b)
  {
    var s := a + [DOT] + b;
    if a == [] {
      assert s[1..] == b;
    } else {
      SplitAtDot(a[1..], b);
      assert s[1..] == a[1..] + [DOT] + b;
      assert [a[0]] + a[1..] == a;
    }
  }

  lemma {:induction false} JoinSplit(s: Text)
    ensures Join(Split(s)) == s
    ensures forall l :: l in Split(s) ==> NoDot(l)
  {
    if s != [] {
      JoinSplit(s[1..]);
      var rest := Split(s[1..]);
      if s[0] == DOT {
        assert ([[]] + rest)[1..] == rest;
        assert [] + [DOT] + Join(rest) == s;
      } else {
        var ls := [[s[0]] + rest[0]] + rest[1..];
        assert rest == [rest[0]] + rest[1..];
        if |rest| > 1 {
          assert ls[1..] == rest[1..];
          assert Join(ls) == [s[0]] + (rest[0] + [DOT] + Join(rest[1..]));
        }
        assert [s[0]] + s[1..] == s;
        assert forall l :: l in ls ==> l == ls[0] || l in rest;
        assert rest[0] in rest;
      }
    }
  }

  lemma {:induction false} SplitJoin(ls: seq<Text>)
    requires ls != []
    requires forall l :: l in ls ==> NoDot(l)
    ensures Split(Join(ls)) == ls
  {
    if |ls| == 1 {
      SplitDotless(ls[0]);
    } else {
      SplitJoin(ls[1..]);
      SplitAtDot(ls[0], Join(ls[1..]));
    }
  }

  lemma {:induction false} JoinAppend(a: seq<Text>, b: seq<Text>)
    requires a != [] && b != []
    ensures Join(a + b) == Join(a) + [DOT] + Join(b)
  {
    if |a| == 1 {
      assert (a + b)[1..] == b;
    } else {
      assert (a + b)[1..] == a[1..] + b;
      JoinAppend(a[1..], b);
    }
  }

  lemma {:induction false} JoinNonempty(ls: seq<Text>)
    requires ls != [] && forall l :: l in ls ==> l != []
    ensures Join(ls) != []
  {
    assert ls[0] in ls;
  }

  /** joinLabels: the builder loop produces the dotted form. */
  method JoinLabels(labels: seq<Text>) returns (s: Text)
    ensures s == Join(labels)
  {
    if |labels| == 0 { return []; }
    s := labels[0];
    var i := 1;
    while i < |labels|
      invariant 1 <= i <= |labels|
      invariant s == Join(labels[..i])
    {
      assert labels[..i + 1] == labels[..i] + [labels[i]];
      JoinAppend(labels[..i], [labels[i]]);
      s := s + [DOT] + labels[i];
      i := i + 1;
    }
    assert labels[..i] == labels;
  }

  /** trimDot: all trailing dots go. */
  function TrimDots(s: Text): (t: Text)
    ensures t <= s
    ensures t == [] || t[|t| - 1] != DOT
    ensures forall i :: |t| <= i < |s| ==> s[i] == DOT
  {
    if s != [] && s[|s| - 1] == DOT then TrimDots(s[..|s| - 1]) else s
  }

  method TrimDot(s: Text) returns (t: Text)
    ensures t == TrimDots(s)
  {
    t := s;
    while t != [] && t[|t| - 1] == DOT
      invariant TrimDots(t) == TrimDots(s)
      decreases |t|
    {
      t := t[..|t| - 1];
    }
  }

  function LowerByte(b: Byte): Byte {
    if 65 <= b <= 90 then b + 32 else b
  }

  /** ASCII strings.ToLower. */
  function Lower(s: Text): (t: Text)
    ensures |t| == |s|
    ensures forall i :: 0 <= i < |s| ==> t[i] == LowerByte(s[i])
  {
    if s == [] then [] else [LowerByte(s[0])] + Lower(s[1..])
  }

  /** Capital letters become small ones, every other byte stays. */
  lemma LowerLetters(i: nat, b: Byte)
    requires i < 26
    ensures LowerByte("ABCDEFGHIJKLMNOPQRSTUVWXYZ"[i] as int) == "abcdefghijklmnopqrstuvwxyz"[i] as int
    ensures b < 'A' as int || 'Z' as int < b ==> LowerByte(b) == b
  {
  }

  /** strings.TrimSuffix(s, "."): at most one dot goes. */
  function TrimSuffixDot(s: Text): Text {
    if s != [] && s[|s| - 1] == DOT then s[..|s| - 1] else s
  }

  function NormalizeName(s: Text): Text {
    Lower(TrimSuffixDot(s))
  }

  // ---------------------------------------------------------------- encoding

  predicate LabelOk(l: Text) {
    1 <= |l| <= 63 && Ascii(l)
  }

  predicate LabelsOk(ls: seq<Text>) {
    forall l :: l in ls ==> LabelOk(l)
  }

  function LabelWire(l: Text): (w: seq<Byte>)
    requires LabelOk(l)
    ensures |w| == 1 + |l|
  {
    [|l|] + l
  }

  /** Each label behind its length byte, no terminator (section 3.1 of RFC 1035). */
  function LabelsWire(ls: seq<Text>): (w: seq<Byte>)
    requires LabelsOk(ls)
  {
    if ls == [] then [] else LabelWire(ls[0]) + LabelsWire(ls[1..])
  }

  lemma {:induction false} LabelsWireAppend(a: seq<Text>, b: seq<Text>)
    requires LabelsOk(a) && LabelsOk(b)
    ensures LabelsOk(a + b)
    ensures LabelsWire(a + b) == LabelsWire(a) + LabelsWire(b)
  {
    if a == [] {
      assert a + b == b;
    } else {
      LabelsWireAppend(a[1..], b);
      assert (a + b)[1..] == a[1..] + b;
    }
  }

  /** What EncodeName yields: the labels of the dot-trimmed text, or an error. */
  function Encode(domain: Text): (r: Result<seq<Byte>>)
    ensures r.Ok? ==> 1 <= |r.value| <= 255
  {
    if domain == [] then Err
    else
      var t := TrimDots(domain);
      if t == [] then Ok([0])
      else if !LabelsOk(Split(t)) then Err
      else
        var w := LabelsWire(Split(t)) + [0];
        if |w| > 255 then Err else Ok(w)
  }

  predicate Ascii(l: Text) {
    forall i :: 0 <= i < |l| ==> l[i] <= 0x7F
  }

  /** The validation loop that EncodeName and readLabel share. */
  method CheckAscii(l: Text) returns (ok: bool)
    ensures ok <==> Ascii(l)
  {
    var j := 0;
    while j < |l|
      invariant 0 <= j <= |l|
      invariant forall k :: 0 <= k < j ==> l[k] <= 0x7F
    {
      if l[j] > 0x7F { return false; }
      j := j + 1;
    }
    return true;
  }

  /** The labels of `d` from offset `from` on; nothing is left behind its end. */
  function LabelsLeft(d: Text, from: nat): seq<Text>
    requires from <= |d| + 1
  {
    if from <= |d| then Split(d[from..]) else []
  }

  lemma ScanLabel(d: Text, from: nat, i: nat)
    requires from <= i <= |d| && NoDot(d[from..i])
    requires i == |d| || d[i] == DOT
    ensures LabelsLeft(d, from) == [d[from..i]] + LabelsLeft(d, i + 1)
  {
    var lab := d[from..i];
    if i < |d| {
      SplitAtDot(lab, d[i + 1..]);
      assert d[from..] == lab + [DOT] + d[i + 1..];
    } else {
      SplitDotless(lab);
      assert d[from..] == lab;
    }
  }

  /** `done` are the labels of `d` that end before offset `from`. */
  ghost predicate Scanned(d: Text, done: seq<Text>, from: nat) {
    from <= |d| + 1 && Split(d) == done + LabelsLeft(d, from)
  }

  lemma ScanStep(d: Text, done: seq<Text>, from: nat, i: nat)
    requires Scanned(d, done, from) && from <= i <= |d| && NoDot(d[from..i])
    requires i == |d| || d[i] == DOT
    ensures Scanned(d, done + [d[from..i]], i + 1)
    ensures d[from..i] in Split(d)
  {
    ScanLabel(d, from, i);
    assert Split(d)[|done|] == d[from..i];
  }

  lemma LabelsWireSnoc(done: seq<Text>, lab: Text)
    requires LabelsOk(done) && LabelOk(lab)
    ensures LabelsOk(done + [lab])
    ensures LabelsWire(done + [lab]) == LabelsWire(done) + LabelWire(lab)
  {
    LabelsWireAppend(done, [lab]);
    assert LabelsWire([lab]) == LabelWire(lab) + LabelsWire([lab][1..]);
  }

  method EncodeName(domain: Text) returns (r: Result<seq<Byte>>)
    ensures r == Encode(domain)
  {
    if domain == [] { return Err; }
    var d := TrimDot(domain);
    if d == [] { return Ok([0]); }
    var out: seq<Byte> := [];
    var labelStart := 0;
    ghost var done: seq<Text> := [];
    assert d[0..] == d;
    for i := 0 to |d| + 1
      invariant labelStart <= i && (i == |d| + 1 ==> labelStart == i)
      invariant labelStart <= |d| ==> NoDot(d[labelStart..i])
      invariant LabelsOk(done) && out == LabelsWire(done)
      invariant Scanned(d, done, labelStart)
    {
      if i == |d| || d[i] == DOT {
        var lab := d[labelStart..i];
        ScanStep(d, done, labelStart, i);
        if i == labelStart { return Err; }
        var ascii := CheckAscii(lab);
        if !ascii { return Err; }
        if |lab| > 63 { return Err; }
        LabelsWireSnoc(done, lab);
        out := out + LabelWire(lab);
        done := done + [lab];
        labelStart := i + 1;
      } else {
        assert d[labelStart..i + 1] == d[labelStart..i] + [d[i]];
      }
    }
    assert Split(d) == done by { assert done + [] == done; }
    out := out + [0];
    if |out| > 255 { return Err; }
    return Ok(out);
  }

  // ---------------------------------------------------------------- decoding

  /** The 14-bit offset that a pointer's two bytes hold. */
  function Pointer(hi: Byte, lo: Byte): (to: nat)
    requires hi >= 0xC0
    ensures to < 0x4000 && hi == 0xC0 + to / 0x100 && lo == to % 0x100
  {
    (hi - 0xC0) * 0x100 + lo
  }

  /** The labels named at `off` when at most `hops` pointers may be followed, and the
      offset just behind the name's own bytes. */
  function LabelsFrom(msg: seq<Byte>, off: nat, hops: nat): (r: Result<(seq<Text>, nat)>)
    ensures r.Ok? ==> off < r.value.1 <= |msg|
    ensures r.Ok? ==> LabelsOk(r.value.0)
    decreases hops, |msg| - off
  {
    if off >= |msg| then Err
    else if msg[off] == 0 then Ok(([], off + 1))
    else if msg[off] >= 0xC0 then
      if off + 1 >= |msg| || hops == 0 then Err
      else
        var ptr := Pointer(msg[off], msg[off + 1]);
        if ptr >= |msg| then Err
        else
          var rest :- LabelsFrom(msg, ptr, hops - 1);
          Ok((rest.0, off + 2))
    else if msg[off] >= 0x40 || off + 1 + msg[off] > |msg| then Err
    else
      var next := off + 1 + msg[off];
      var lab := msg[off + 1..next];
      if !LabelOk(lab) then Err
      else
        var rest :- LabelsFrom(msg, next, hops);
        Ok(([lab] + rest.0, rest.1))
  }

  /** What DecodeName yields: the dotted name at `off` and the offset behind it. */
  function Decode(msg: seq<Byte>, off: nat): (r: Result<(Text, nat)>)
    ensures r.Ok? ==> off < r.value.1 <= |msg|
  {
    Joined(LabelsFrom(msg, off, MAX_HOPS))
  }

  /** Whenever the name at `v` can be decoded, so can the one at `pos`, within the same bound:
      `pos` lies on the pointer chain that starts at `v`. */
  ghost predicate OnChain(msg: seq<Byte>, v: nat, pos: nat) {
    forall h: nat :: LabelsFrom(msg, v, h).Ok? ==> LabelsFrom(msg, pos, h).Ok?
  }

  /** The two bytes at `pos` are a pointer to offset `ptr`: the two top bits set, then 14 bits. */
  predicate PointsTo(msg: seq<Byte>, pos: nat, ptr: nat) {
    ptr < 0x4000 && pos + 1 < |msg| && msg[pos] == 0xC0 + ptr / 0x100 && msg[pos + 1] == ptr % 0x100
  }

  /** A chain that comes back to one of its own offsets has no name at all, whatever the bound. */
  lemma {:induction false} LoopNeverDecodes(msg: seq<Byte>, ptr: nat, pos: nat, h: nat)
    requires PointsTo(msg, pos, ptr) && OnChain(msg, ptr, pos)
    ensures LabelsFrom(msg, ptr, h).Err? && LabelsFrom(msg, pos, h).Err?
    decreases h
  {
    if h > 0 {
      LoopNeverDecodes(msg, ptr, pos, h - 1);
    }
  }

  lemma {:induction false} MoreHops(msg: seq<Byte>, off: nat, h: nat, more: nat)
    requires h <= more && LabelsFrom(msg, off, h).Ok?
    ensures LabelsFrom(msg, off, more) == LabelsFrom(msg, off, h)
    decreases h, |msg| - off
  {
    if msg[off] >= 0xC0 {
      MoreHops(msg, Pointer(msg[off], msg[off + 1]), h - 1, more - 1);
    } else if msg[off] != 0 {
      MoreHops(msg, off + 1 + msg[off], h, more);
    }
  }

  lemma ChainThroughPointer(msg: seq<Byte>, v: nat, pos: nat, ptr: nat)
    requires PointsTo(msg, pos, ptr) && OnChain(msg, v, pos)
    ensures OnChain(msg, v, ptr)
  {
    forall h: nat | LabelsFrom(msg, v, h).Ok? ensures LabelsFrom(msg, ptr, h).Ok? {
      assert LabelsFrom(msg, pos, h).Ok?;
      MoreHops(msg, ptr, h - 1, h);
    }
  }

  lemma ChainThroughLabel(msg: seq<Byte>, v: nat, pos: nat)
    requires pos < |msg| && 0 < msg[pos] < 0x40 && OnChain(msg, v, pos)
    ensures OnChain(msg, v, pos + 1 + msg[pos])
  {
    forall h: nat | LabelsFrom(msg, v, h).Ok? ensures LabelsFrom(msg, pos + 1 + msg[pos], h).Ok? {
      assert LabelsFrom(msg, pos, h).Ok?;
    }
  }

  function Joined(r: Result<(seq<Text>, nat)>): Result<(Text, nat)> {
    match r
    case Err => Err
    case Ok(d) => Ok((Join(d.0), d.1))
  }

  /** followCompressionPointer: `pos` holds a pointer's first byte. */
  method FollowPointer(msg: seq<Byte>, pos: nat, depth: nat, visited: set<nat>)
    returns (rest: Result<Text>)
    requires pos < |msg| && msg[pos] >= 0xC0 && depth <= MAX_HOPS
    requires forall v :: v in visited ==> OnChain(msg, v, pos)
    ensures rest == match LabelsFrom(msg, pos, MAX_HOPS - depth)
                    case Err => Err
                    case Ok(d) => Ok(Join(d.0))
    decreases MAX_HOPS + 1 - depth, 0
  {
    if pos + 1 >= |msg| { return Err; }
    var ptr := Pointer(msg[pos], msg[pos + 1]);
    if ptr >= |msg| { return Err; }
    if ptr in visited {
      LoopNeverDecodes(msg, ptr, pos, MAX_HOPS - depth);
      return Err;
    }
    forall v | v in visited + {ptr} ensures OnChain(msg, v, ptr) {
      if v in visited { ChainThroughPointer(msg, v, pos, ptr); }
    }
    var r := DecodeNameFrom(msg, ptr, depth + 1, visited + {ptr});
    rest := if r.Err? then Err else Ok(r.value.0);
  }

  /** readLabel, and the dispatch on reserved length bytes in front of it. */
  method ReadLabel(msg: seq<Byte>, pos: nat) returns (lab: Result<Text>)
    requires pos < |msg| && 0 < msg[pos] < 0xC0
    ensures lab == (if msg[pos] >= 0x40 || pos + 1 + msg[pos] > |msg| then Err
                    else if LabelOk(msg[pos + 1..pos + 1 + msg[pos]]) then Ok(msg[pos + 1..pos + 1 + msg[pos]])
                    else Err)
  {
    if msg[pos] >= 0x40 { return Err; }
    if pos + 1 + msg[pos] > |msg| { return Err; }
    var bytes := msg[pos + 1..pos + 1 + msg[pos]];
    var ascii := CheckAscii(bytes);
    lab := if ascii then Ok(bytes) else Err;
  }

  /** decodeName with its depth counter and visited set. The set only ever cuts off names that
      the depth bound rejects as well, so the result is the one of the bound alone. */
  method DecodeNameFrom(msg: seq<Byte>, start: nat, depth: nat, visited: set<nat>)
    returns (r: Result<(Text, nat)>)
    requires depth <= MAX_HOPS + 1
    requires forall v :: v in visited ==> OnChain(msg, v, start)
    ensures r == if depth > MAX_HOPS then Err else Joined(LabelsFrom(msg, start, MAX_HOPS - depth))
    decreases MAX_HOPS + 1 - depth, 1
  {
    hide OnChain, Join, LabelOk;
    if depth > MAX_HOPS { return Err; }
    if start >= |msg| { return Err; }
    ghost var hops := MAX_HOPS - depth;
    ghost var whole := LabelsFrom(msg, start, hops);
    var off := start;
    var labels: seq<Text> := [];
    BehindNothing(whole);
    while true
      invariant start <= off <= |msg|
      invariant forall v :: v in visited ==> OnChain(msg, v, off)
      invariant whole == Behind(labels, LabelsFrom(msg, off, hops))
      decreases |msg| - off
    {
      if off >= |msg| { return Err; }
      if msg[off] == 0 {
        assert labels + [] == labels;
        var name := JoinLabels(labels);
        return Ok((name, off + 1));
      }
      if msg[off] >= 0xC0 {
        var rest := FollowPointer(msg, off, depth, visited);
        if rest.Err? { return Err; }
        JoinRest(labels, LabelsFrom(msg, off, hops).value.0);
        if rest.value != [] {
          labels := labels + [rest.value];
        }
        var name := JoinLabels(labels);
        return Ok((name, off + 2));
      }
      var lab := ReadLabel(msg, off);
      if lab.Err? { return Err; }
      forall v | v in visited ensures OnChain(msg, v, off + 1 + msg[off]) {
        ChainThroughLabel(msg, v, off);
      }
      LabelThenRest(msg, off, hops);
      BehindBehind(labels, [lab.value], LabelsFrom(msg, off + 1 + msg[off], hops));
      labels := labels + [lab.value];
      off := off + 1 + msg[off];
    }
  }

  lemma LabelThenRest(msg: seq<Byte>, off: nat, hops: nat)
    requires off < |msg| && 0 < msg[off] < 0x40 && off + 1 + msg[off] <= |msg|
    requires LabelOk(msg[off + 1..off + 1 + msg[off]])
    ensures LabelsFrom(msg, off, hops)
         == Behind([msg[off + 1..off + 1 + msg[off]]], LabelsFrom(msg, off + 1 + msg[off], hops))
  {
  }

  /** Appending a decoded remainder as one more label, unless it is empty, joins to the same text. */
  lemma JoinRest(labels: seq<Text>, tail: seq<Text>)
    requires LabelsOk(tail)
    ensures Join(tail) == [] ==> Join(labels + tail) == Join(labels)
    ensures Join(tail) != [] ==> Join(labels + tail) == Join(labels + [Join(tail)])
  {
    if tail == [] {
      assert labels + tail == labels;
    } else {
      JoinNonempty(tail);
      if labels == [] {
        assert labels + [Join(tail)] == [Join(tail)] && labels + tail == tail;
      } else {
        JoinAppend(labels, [Join(tail)]);
        JoinAppend(labels, tail);
      }
    }
  }

  method DecodeName(msg: seq<Byte>, off: nat) returns (r: Result<(Text, nat)>)
    ensures r == Decode(msg, off)
  {
    r := DecodeNameFrom(msg, off, 0, {});
  }

  // ---------------------------------------------------------------- exactness

  /** Consecutive plain labels from `start` up to the byte at `stop`. */
  datatype Run = Run(start: nat, labels: seq<Text>, stop: nat)

  predicate RunAt(msg: seq<Byte>, r: Run) {
    && LabelsOk(r.labels)
    && At(msg, r.start, LabelsWire(r.labels))
    && r.stop == r.start + |LabelsWire(r.labels)| < |msg|
  }

  /** Section 4.1.4 of RFC 1035: runs of labels, each but the last ending in a pointer to the
      next, the last one ending in the root label. */
  predicate Chain(msg: seq<Byte>, runs: seq<Run>) {
    && |runs| > 0
    && RunAt(msg, runs[0])
    && if |runs| == 1 then msg[runs[0].stop] == 0
       else PointsTo(msg, runs[0].stop, runs[1].start) && Chain(msg, runs[1..])
  }

  function ChainLabels(runs: seq<Run>): seq<Text> {
    if runs == [] then [] else runs[0].labels + ChainLabels(runs[1..])
  }

  /** The name's own bytes end behind the first run's pointer or root label. */
  function ChainEnd(runs: seq<Run>): nat
    requires runs != []
  {
    runs[0].stop + if |runs| == 1 then 1 else 2
  }

  ghost predicate NamedBy(msg: seq<Byte>, off: nat, hops: nat, runs: seq<Run>) {
    Chain(msg, runs) && runs[0].start == off && |runs| <= hops + 1
  }

  lemma {:induction false} RunDecodes(msg: seq<Byte>, off: nat, ls: seq<Text>, hops: nat)
    requires LabelsOk(ls) && At(msg, off, LabelsWire(ls)) && off + |LabelsWire(ls)| < |msg|
    ensures LabelsFrom(msg, off, hops) == Behind(ls, LabelsFrom(msg, off + |LabelsWire(ls)|, hops))
    decreases ls
  {
    hide At, LabelsFrom, LabelOk, LabelWire;
    if ls == [] {
      BehindNothing(LabelsFrom(msg, off, hops));
    } else {
      var mid, end := off + 1 + |ls[0]|, off + |LabelsWire(ls)|;
      var rest := LabelsFrom(msg, end, hops);
      LabelStep(msg, off, ls[0], LabelsWire(ls[1..]), hops);
      assert LabelsFrom(msg, mid, hops) == Behind(ls[1..], rest) by {
        RunDecodes(msg, mid, ls[1..], hops);
      }
      BehindBehind([ls[0]], ls[1..], rest);
      assert [ls[0]] + ls[1..] == ls;
    }
  }

  lemma LabelStep(msg: seq<Byte>, off: nat, lab: Text, rest: seq<Byte>, hops: nat)
    requires LabelOk(lab) && At(msg, off, LabelWire(lab) + rest)
    ensures At(msg, off + 1 + |lab|, rest)
    ensures LabelsFrom(msg, off, hops) == Behind([lab], LabelsFrom(msg, off + 1 + |lab|, hops))
  {
    AtAppend(msg, off, LabelWire(lab), rest);
    AtAppend(msg, off, [|lab|], lab);
    assert msg[off] == msg[off..off + 1][0] == |lab|;
    assert msg[off + 1..off + 1 + |lab|] == lab;
  }

  lemma PointerStep(msg: seq<Byte>, pos: nat, ptr: nat, hops: nat)
    requires PointsTo(msg, pos, ptr) && hops > 0 && LabelsFrom(msg, ptr, hops - 1).Ok?
    ensures LabelsFrom(msg, pos, hops) == Ok((LabelsFrom(msg, ptr, hops - 1).value.0, pos + 2))
  {
  }

  lemma RootStep(msg: seq<Byte>, pos: nat, hops: nat)
    requires pos < |msg| && msg[pos] == 0
    ensures LabelsFrom(msg, pos, hops) == Ok(([], pos + 1))
  {
  }

  lemma {:induction false} ChainDecodes(msg: seq<Byte>, runs: seq<Run>, hops: nat)
    requires Chain(msg, runs) && |runs| <= hops + 1
    ensures LabelsFrom(msg, runs[0].start, hops) == Ok((ChainLabels(runs), ChainEnd(runs)))
    decreases |runs|
  {
    hide LabelsFrom, LabelsWire, At, PointsTo, LabelsOk;
    var r := runs[0];
    RunDecodes(msg, r.start, r.labels, hops);
    if |runs| > 1 {
      ChainDecodes(msg, runs[1..], hops - 1);
      PointerStep(msg, r.stop, runs[1].start, hops);
    } else {
      RootStep(msg, r.stop, hops);
      assert runs[1..] == [];
    }
  }

  lemma {:induction false} DecodedIsChain(msg: seq<Byte>, off: nat, hops: nat) returns (runs: seq<Run>)
    requires LabelsFrom(msg, off, hops).Ok?
    ensures NamedBy(msg, off, hops, runs)
    ensures LabelsFrom(msg, off, hops).value == (ChainLabels(runs), ChainEnd(runs))
    decreases hops, |msg| - off
  {
    hide Chain, ChainLabels, ChainEnd, At, LabelOk, LabelWire;
    if msg[off] == 0 {
      runs := RootChain(msg, off);
    } else if msg[off] >= 0xC0 {
      var more := DecodedIsChain(msg, Pointer(msg[off], msg[off + 1]), hops - 1);
      runs := PrependPointer(msg, off, more);
    } else {
      var next := off + 1 + msg[off];
      var lab := msg[off + 1..next];
      LabelBytes(msg, off);
      var more := DecodedIsChain(msg, next, hops);
      runs := PrependLabel(msg, off, lab, more);
    }
  }

  lemma RootChain(msg: seq<Byte>, off: nat) returns (runs: seq<Run>)
    requires off < |msg| && msg[off] == 0
    ensures Chain(msg, runs) && runs[0].start == off && |runs| == 1
    ensures ChainLabels(runs) == [] && ChainEnd(runs) == off + 1
  {
    runs := [Run(off, [], off)];
    assert ChainLabels(runs) == [] + ChainLabels([]);
  }

  lemma LabelBytes(msg: seq<Byte>, off: nat)
    requires off < |msg| && off + 1 + msg[off] <= |msg| && LabelOk(msg[off + 1..off + 1 + msg[off]])
    ensures At(msg, off, LabelWire(msg[off + 1..off + 1 + msg[off]]))
  {
    var lab := msg[off + 1..off + 1 + msg[off]];
    assert msg[off..off + 1 + |lab|] == [msg[off]] + lab;
  }

  lemma PrependPointer(msg: seq<Byte>, off: nat, more: seq<Run>) returns (runs: seq<Run>)
    requires Chain(msg, more) && PointsTo(msg, off, more[0].start)
    ensures Chain(msg, runs) && runs[0].start == off && |runs| == |more| + 1
    ensures ChainLabels(runs) == ChainLabels(more) && ChainEnd(runs) == off + 2
  {
    runs := [Run(off, [], off)] + more;
    assert runs[1..] == more;
    assert [] + ChainLabels(more) == ChainLabels(more);
  }

  lemma PrependLabel(msg: seq<Byte>, off: nat, lab: Text, more: seq<Run>) returns (runs: seq<Run>)
    requires LabelOk(lab) && At(msg, off, LabelWire(lab))
    requires Chain(msg, more) && more[0].start == off + 1 + |lab|
    ensures Chain(msg, runs) && runs[0].start == off && |runs| == |more|
    ensures ChainLabels(runs) == [lab] + ChainLabels(more) && ChainEnd(runs) == ChainEnd(more)
  {
    var ls := [lab] + more[0].labels;
    var r := Run(off, ls, more[0].stop);
    assert ls[1..] == more[0].labels;
    assert LabelsWire(ls) == LabelWire(lab) + LabelsWire(more[0].labels);
    assert msg[off..off + |LabelsWire(ls)|] == msg[off..more[0].start] + msg[more[0].start..more[0].stop];
    runs := [r] + more[1..];
    assert runs[1..] == more[1..];
    assert ls + ChainLabels(more[1..]) == [lab] + (more[0].labels + ChainLabels(more[1..]));
  }

  /** DecodeName succeeds exactly on the names that section 4.1.4 of RFC 1035 describes with at
      most 20 pointer hops, and returns their labels joined by dots and the offset behind them. */
  lemma DecodeExact(msg: seq<Byte>, off: nat, name: Text, end: nat)
    ensures Decode(msg, off) == Ok((name, end)) <==>
            exists runs :: NamedBy(msg, off, 20, runs)
                        && name == Join(ChainLabels(runs)) && end == ChainEnd(runs)
  {
    if Decode(msg, off) == Ok((name, end)) {
      var runs := DecodedIsChain(msg, off, MAX_HOPS);
    }
    forall runs | NamedBy(msg, off, MAX_HOPS, runs)
      ensures Decode(msg, off) == Ok((Join(ChainLabels(runs)), ChainEnd(runs)))
    {
      ChainDecodes(msg, runs, MAX_HOPS);
    }
  }

  lemma EmptyJoin()
    ensures Join([]) == [] && LabelsOk([])
  {
  }

  lemma {:induction false} TrimmedNonRoot(domain: Text)
    requires Encode(domain).Ok? && TrimDots(domain) != []
    ensures Join(Split(TrimDots(domain))) == TrimDots(domain)
  {
    JoinSplit(TrimDots(domain));
  }

  /** Print then parse: wherever an encoded name stands in a message, decoding yields the text
      without its trailing dots and stops right behind the encoding. */
  lemma DecodeEncode(domain: Text, msg: seq<Byte>, off: nat)
    requires Encode(domain).Ok? && At(msg, off, Encode(domain).value)
    ensures Decode(msg, off) == Ok((TrimDots(domain), off + |Encode(domain).value|))
  {
    var ls := EncodedLabels(domain, msg, off, MAX_HOPS);
  }

  /** Compression: labels in front of a pointer to an encoded name read as the labels and that name,
      and only the labels and the pointer are consumed. */
  lemma CompressedName(ls: seq<Text>, domain: Text, to: nat, msg: seq<Byte>, off: nat)
    requires LabelsOk(ls) && Encode(domain).Ok? && to < 0x4000
    requires At(msg, to, Encode(domain).value) && At(msg, off, LabelsWire(ls) + [0xC0 + to / 0x100, to % 0x100])
    ensures Decode(msg, off) == Ok((Continued(ls, TrimDots(domain)), off + |LabelsWire(ls)| + 2))
  {
    hide LabelsFrom, LabelsWire, LabelsOk, Encode, At, TrimDots, Join;
    var ptr := [0xC0 + to / 0x100, to % 0x100];
    var stop := off + |LabelsWire(ls)|;
    AtAppend(msg, off, LabelsWire(ls), ptr);
    PointerAt(msg, stop, to);
    var tail := EncodedLabels(domain, msg, to, 19);
    PointerStep(msg, stop, to, MAX_HOPS);
    RunDecodes(msg, off, ls, MAX_HOPS);
    JoinContinued(ls, tail);
  }

  /** The dotted text of labels in front of a name. */
  function Continued(ls: seq<Text>, name: Text): Text {
    if ls == [] then name else if name == [] then Join(ls) else Join(ls) + [DOT] + name
  }

  lemma JoinContinued(ls: seq<Text>, tail: seq<Text>)
    requires LabelsOk(tail)
    ensures Join(ls + tail) == Continued(ls, Join(tail))
  {
    if ls == [] {
      assert ls + tail == tail;
    } else if tail == [] {
      assert ls + tail == ls;
    } else {
      JoinNonempty(tail);
      JoinAppend(ls, tail);
    }
  }

  lemma PointerAt(msg: seq<Byte>, pos: nat, to: nat)
    requires to < 0x4000 && At(msg, pos, [0xC0 + to / 0x100, to % 0x100])
    ensures PointsTo(msg, pos, to)
  {
    AtAppend(msg, pos, [0xC0 + to / 0x100], [to % 0x100]);
    AtByte(msg, pos, 0xC0 + to / 0x100);
    AtByte(msg, pos + 1, to % 0x100);
    assert [0xC0 + to / 0x100] + [to % 0x100] == [0xC0 + to / 0x100, to % 0x100];
  }

  /** The labels of an encoded name, under any hop bound. */
  lemma EncodedLabels(domain: Text, msg: seq<Byte>, off: nat, hops: nat) returns (ls: seq<Text>)
    requires Encode(domain).Ok? && At(msg, off, Encode(domain).value)
    ensures LabelsOk(ls) && Join(ls) == TrimDots(domain)
    ensures LabelsFrom(msg, off, hops) == Ok((ls, off + |Encode(domain).value|))
  {
    hide LabelsFrom, LabelsWire, LabelsOk, Split, At, TrimDots, Join;
    var t := TrimDots(domain);
    if t == [] {
      ls := [];
      AtByte(msg, off, 0);
      RootStep(msg, off, hops);
      EmptyJoin();
    } else {
      ls := Split(t);
      AtAppend(msg, off, LabelsWire(ls), [0]);
      var stop := off + |LabelsWire(ls)|;
      AtByte(msg, stop, 0);
      RunDecodes(msg, off, ls, hops);
      RootStep(msg, stop, hops);
      assert ls + [] == ls;
      TrimmedNonRoot(domain);
    }
  }

  /** Exactly which texts EncodeName accepts. */
  lemma EncodableIff(domain: Text)
    ensures Encode(domain).Ok? <==>
            && domain != []
            && var t := TrimDots(domain);
            && (t == [] || (|t| <= 253 && forall l :: l in Split(t) ==>
                              1 <= |l| <= 63 && forall i :: 0 <= i < |l| ==> l[i] <= 127))
  {
    hide Split, TrimDots, LabelsWire;
    var t := TrimDots(domain);
    if LabelsOk(Split(t)) {
      WireLength(Split(t));
      JoinSplit(t);
    }
  }

  /** Length bytes take the place of dots, and one byte more. */
  lemma {:induction false} WireLength(ls: seq<Text>)
    requires LabelsOk(ls) && ls != []
    ensures |LabelsWire(ls)| == |Join(ls)| + 1
  {
    if |ls| > 1 {
      WireLength(ls[1..]);
    } else {
      assert ls[1..] == [];
    }
  }
}
