/** Bytes, fixed-width integers and the two result shapes the wire code uses. */
module Wire {

  type Byte = b: int | 0 <= b < 0x100
  type U16 = n: int | 0 <= n < 0x1_0000
  type U32 = n: int | 0 <= n < 0x1_0000_0000

  /** Every wire error of the source wraps one sentinel, so failures carry no payload here. */
  datatype Result<+T> = Ok(value: T) | Err {
    predicate IsFailure() { Err? }

    function PropagateFailure<U>(): Result<U>
      requires Err?
    {
      Err
    }

    function Extract(): T
      requires Ok?
    {
      value
    }
  }

  /** time.Duration and clock readings count nanoseconds. */
  const SECOND := 1_000_000_000

  datatype Option<+T> = None | Some(value: T)

  /** Items already read, in front of what a reader still returns. */
  function Behind<T>(done: seq<T>, r: Result<(seq<T>, nat)>): Result<(seq<T>, nat)> {
    match r
    case Err => Err
    case Ok((rest, end)) => Ok((done + rest, end))
  }

  lemma BehindNothing<T>(r: Result<(seq<T>, nat)>)
    ensures Behind([], r) == r
  {
    if r.Ok? { assert [] + r.value.0 == r.value.0; }
  }

  lemma BehindBehind<T>(a: seq<T>, b: seq<T>, r: Result<(seq<T>, nat)>)
    ensures Behind(a, Behind(b, r)) == Behind(a + b, r)
  {
    if r.Ok? { assert a + (b + r.value.0) == (a + b) + r.value.0; }
  }

  /** Big-endian 16-bit field. */
  function PutU16(v: U16): (b: seq<Byte>)
    ensures |b| == 2
  {
    [v / 0x100, v % 0x100]
  }

  function GetU16(s: seq<Byte>, at: nat): U16
    requires at + 2 <= |s|
  {
    (s[at] as int) * 0x100 + (s[at + 1] as int)
  }

  /** Big-endian 32-bit field. */
  function PutU32(v: U32): (b: seq<Byte>)
    ensures |b| == 4
  {
    PutU16(v / 0x1_0000) + PutU16(v % 0x1_0000)
  }

  function GetU32(s: seq<Byte>, at: nat): U32
    requires at + 4 <= |s|
  {
    (GetU16(s, at) as int) * 0x1_0000 + (GetU16(s, at + 2) as int)
  }

  /** helpers.ClampIntToUint16 on a length. */
  function ClampU16(n: nat): U16 {
    if n > 0xFFFF then 0xFFFF else n
  }

  /** `piece` occupies `msg` from offset `at` on. */
  predicate At(msg: seq<Byte>, at: nat, piece: seq<Byte>) {
    at + |piece| <= |msg| && msg[at..at + |piece|] == piece
  }

  lemma AtAppend(msg: seq<Byte>, at: nat, a: seq<Byte>, b: seq<Byte>)
    requires At(msg, at, a + b)
    ensures At(msg, at, a) && At(msg, at + |a|, b)
  {
    var w := msg[at..at + |a + b|];
    assert w[..|a|] == a && w[|a|..] == b;
    assert msg[at..at + |a|] == w[..|a|];
    assert msg[at + |a|..at + |a| + |b|] == w[|a|..];
  }

  lemma AtByte(msg: seq<Byte>, at: nat, b: Byte)
    requires At(msg, at, [b])
    ensures at < |msg| && msg[at] == b
  {
    assert msg[at] == msg[at..at + 1][0];
  }

  lemma AtSelf(msg: seq<Byte>)
    ensures At(msg, 0, msg)
  {
  }

  lemma GetPutU16(msg: seq<Byte>, at: nat, v: U16)
    requires At(msg, at, PutU16(v))
    ensures GetU16(msg, at) == v
  {
    assert msg[at] == msg[at..at + 2][0] && msg[at + 1] == msg[at..at + 2][1];
  }

  lemma GetPutU32(msg: seq<Byte>, at: nat, v: U32)
    requires At(msg, at, PutU32(v))
    ensures GetU32(msg, at) == v
  {
    AtAppend(msg, at, PutU16(v / 0x1_0000), PutU16(v % 0x1_0000));
    GetPutU16(msg, at, v / 0x1_0000);
    GetPutU16(msg, at + 2, v % 0x1_0000);
  }

  /** Overwrites `msg` from offset `at` on with `piece`. */
  function Splice(msg: seq<Byte>, at: nat, piece: seq<Byte>): (r: seq<Byte>)
    requires at + |piece| <= |msg|
    ensures |r| == |msg| && At(r, at, piece)
    ensures forall i :: 0 <= i < |msg| && !(at <= i < at + |piece|) ==> r[i] == msg[i]
  {
    msg[..at] + piece + msg[at + |piece|..]
  }
}
