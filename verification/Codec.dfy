/**
 The byte forms the writer produces and the meaning the reader gives to bytes at a position,
 as functions, with the round trips between them. Every round trip allows any bytes before the
 encoded value and any bytes after it.
 */
module Codec {
  import opened Common
  import opened Bits
  import opened Varint

  type Uuid = b: Bytes | |b| == 16 witness [0, 0, 0, 0, 0, 0, 0, 0, 0, 0, 0, 0, 0, 0, 0, 0]

  /** The nil UUID. */
  const NIL: Uuid := [0, 0, 0, 0, 0, 0, 0, 0, 0, 0, 0, 0, 0, 0, 0, 0]

  function Reverse(s: Bytes): (r: Bytes)
    ensures |r| == |s|
    ensures forall k :: 0 <= k < |s| ==> r[k] == s[|s| - 1 - k]
  {
    if s == [] then [] else Reverse(s[1..]) + [s[0]]
  }

  lemma ReverseTwice(s: Bytes)
    ensures Reverse(Reverse(s)) == s
  {
    assert forall k :: 0 <= k < |s| ==> Reverse(Reverse(s))[k] == s[k];
  }

  // ----- Fixed-width integers -----

  /** `n` bytes of `v`, least significant first. */
  function EncLE(v: nat, n: nat): (r: Bytes)
    ensures |r| == n
  {
    if n == 0 then [] else [v % 256] + EncLE(v / 256, n - 1)
  }

  function FromLE(bs: Bytes): nat {
    if bs == [] then 0 else bs[0] + 256 * FromLE(bs[1..])
  }

  function EncBE(v: nat, n: nat): (r: Bytes)
    ensures |r| == n
  {
    Reverse(EncLE(v, n))
  }

  lemma {:induction false} FromEncLE(v: nat, n: nat)
    requires v < Pow2(8 * n)
    ensures FromLE(EncLE(v, n)) == v
  {
    if n > 0 {
      PowValues();
      PowAdd(8, 8 * (n - 1));
      FromEncLE(v / 256, n - 1);
      assert EncLE(v, n)[1..] == EncLE(v / 256, n - 1);
    }
  }

  lemma {:induction false} EncFromLE(bs: Bytes)
    ensures EncLE(FromLE(bs), |bs|) == bs
  {
    if bs != [] {
      EncFromLE(bs[1..]);
      LowByteFirst(bs[0], FromLE(bs[1..]), |bs| - 1);
      assert bs == [bs[0]] + bs[1..];
    }
  }

  lemma LowByteFirst(b: byte, rest: nat, n: nat)
    ensures EncLE(b + 256 * rest, n + 1) == [b] + EncLE(rest, n)
  {
    LowByte(b, rest);
  }

  lemma LowByte(b: byte, rest: nat)
    ensures (b + 256 * rest) % 256 == b && (b + 256 * rest) / 256 == rest
  {}

  lemma {:induction false} FromLEBound(bs: Bytes)
    ensures FromLE(bs) < Pow2(8 * |bs|)
  {
    if bs != [] {
      FromLEBound(bs[1..]);
      PowValues();
      PowAdd(8, 8 * |bs[1..]|);
    }
  }

  // ----- Reads at a position -----

  function GetRaw(data: Bytes, pos: nat, n: nat): Read<Bytes> {
    if pos + n <= |data| then Got(data[pos..pos + n], pos + n) else Throw
  }

  function GetU8(data: Bytes, pos: nat): Read<byte> {
    if pos < |data| then Got(data[pos], pos + 1) else Throw
  }

  function GetBool(data: Bytes, pos: nat): Read<bool> {
    var (b, next) :- GetU8(data, pos);
    Got(b != 0, next)
  }

  function GetLE(data: Bytes, pos: nat, n: nat): Read<nat> {
    var (bs, next) :- GetRaw(data, pos, n);
    Got(FromLE(bs), next)
  }

  /** Two bytes as a signed number. */
  function Int16(n: nat): int { if n < 0x8000 then n else n - 0x1_0000 }

  predicate IsInt16(v: int) { -0x8000 <= v < 0x8000 }

  function GetI16LE(data: Bytes, pos: nat): Read<int> {
    var (n, next) :- GetLE(data, pos, 2);
    Got(Int16(n), next)
  }

  function GetBE(data: Bytes, pos: nat, n: nat): Read<nat> {
    var (bs, next) :- GetRaw(data, pos, n);
    Got(FromLE(Reverse(bs)), next)
  }

  function GetString(data: Bytes, pos: nat): Read<Bytes> {
    var (len, next) :- GetVar(data, pos, 32);
    GetRaw(data, next, len)
  }

  function GetStringU32LE(data: Bytes, pos: nat): Read<Bytes> {
    var (len, next) :- GetLE(data, pos, 4);
    GetRaw(data, next, len)
  }

  /** The wire keeps a UUID as two 8-byte halves, each reversed. */
  function SwapHalves(b: Bytes): (r: Bytes)
    requires |b| == 16
    ensures |r| == 16
  {
    Reverse(b[..8]) + Reverse(b[8..])
  }

  function GetUUID(data: Bytes, pos: nat): Read<Uuid> {
    match GetRaw(data, pos, 16)
    case Throw => Throw
    case Got(bs, next) => Got(SwapHalves(bs), next)
  }

  // ----- Written forms -----

  function EncI16LE(v: int): (r: Bytes)
    ensures |r| == 2
  {
    EncLE(v % 0x1_0000, 2)
  }

  function EncBool(b: bool): (r: Bytes)
    ensures |r| == 1
  {
    [if b then 1 else 0]
  }

  function EncString(s: Bytes): Bytes { EncVar(|s| % TWO_32) + s }

  function EncStringU32LE(s: Bytes): Bytes { EncLE(|s| % TWO_32, 4) + s }

  function EncUUID(id: Uuid): (r: Bytes)
    ensures |r| == 16
  {
    SwapHalves(id)
  }

  // ----- Byte by byte -----

  /** Little-endian: the digits of the number, least significant first. */
  lemma {:induction false} LEBytes(v: nat, n: nat, k: nat)
    requires k < n
    ensures EncLE(v, n)[k] == Digit(v, 256, k)
  {
    if k > 0 {
      LEBytes(v / 256, n - 1, k - 1);
    }
  }

  /** Big-endian: most significant first. */
  lemma BEBytes(v: nat, n: nat, k: nat)
    requires k < n
    ensures EncBE(v, n)[k] == Digit(v, 256, n - 1 - k)
  {
    LEBytes(v, n, n - 1 - k);
  }

  lemma {:induction false} FromLEBytes(bs: Bytes, k: nat)
    requires k < |bs|
    ensures Digit(FromLE(bs), 256, k) == bs[k]
  {
    LowByte(bs[0], FromLE(bs[1..]));
    if k > 0 {
      FromLEBytes(bs[1..], k - 1);
    }
  }

  /** What the fixed-width reads make of the bytes, either way round. */
  lemma NumberBytes(data: Bytes, pos: nat, n: nat, k: nat)
    requires k < n && pos + n <= |data|
    ensures GetLE(data, pos, n).Got? && GetBE(data, pos, n).Got?
    ensures Digit(GetLE(data, pos, n).value, 256, k) == data[pos + k]
    ensures Digit(GetBE(data, pos, n).value, 256, k) == data[pos + n - 1 - k]
  {
    hide FromLE, Digit;
    var bs := data[pos..pos + n];
    FromLEBytes(bs, k);
    FromLEBytes(Reverse(bs), k);
  }

  /** A UUID is written and read with each half back to front. */
  lemma UUIDBytes(id: Uuid, k: nat)
    requires k < 8
    ensures EncUUID(id)[k] == id[7 - k] && EncUUID(id)[8 + k] == id[15 - k]
  {}

  lemma GetUUIDBytes(data: Bytes, pos: nat, k: nat)
    requires k < 8 && pos + 16 <= |data|
    ensures GetUUID(data, pos).Got? && GetUUID(data, pos).next == pos + 16
    ensures GetUUID(data, pos).value[k] == data[pos + 7 - k]
    ensures GetUUID(data, pos).value[8 + k] == data[pos + 15 - k]
  {
    var bs := data[pos..pos + 16];
    assert bs[..8][7 - k] == data[pos + 7 - k] && bs[8..][7 - k] == data[pos + 15 - k];
  }

  /** True is the byte 1; every byte but 0 is read as true. */
  lemma BoolBytes(data: Bytes, pos: nat)
    ensures EncBool(true) == [1] && EncBool(false) == [0]
    ensures pos < |data| ==> GetBool(data, pos) == Got(data[pos] > 0, pos + 1)
    ensures pos >= |data| ==> GetBool(data, pos) == Throw
  {}

  /** Before a string stands its length: as a varint, or in four bytes. */
  lemma StringBytes(s: Bytes, k: nat)
    requires k < |s| < TWO_32
    ensures |s| < 128 ==> |EncString(s)| == 1 + |s| && EncString(s)[0] == |s|
    ensures EncString(s)[|EncString(s)| - |s| + k] == s[k]
    ensures |EncStringU32LE(s)| == 4 + |s| && EncStringU32LE(s)[4 + k] == s[k]
    ensures forall i :: 0 <= i < 4 ==> EncStringU32LE(s)[i] == Digit(|s|, 256, i)
  {
    hide EncLE, Digit;
    forall i | 0 <= i < 4
      ensures EncStringU32LE(s)[i] == Digit(|s|, 256, i)
    {
      LEBytes(|s|, 4, i);
    }
  }

  // ----- Round trips -----

  lemma WidthBounds()
    ensures Pow2(8 * 2) == 0x1_0000 && Pow2(8 * 4) == TWO_32 && Pow2(8 * 8) == TWO_64
  {
    PowValues();
  }

  lemma BoolRoundTrip(b: bool, data: Bytes, pos: nat)
    requires At(data, pos, EncBool(b))
    ensures GetBool(data, pos) == Got(b, pos + 1)
  {
    AtIndex(data, pos, EncBool(b));
    assert data[pos + 0] == EncBool(b)[0];
  }

  lemma LERoundTrip(v: nat, n: nat, data: Bytes, pos: nat)
    requires v < Pow2(8 * n) && At(data, pos, EncLE(v, n))
    ensures GetLE(data, pos, n) == Got(v, pos + n)
  {
    hide EncLE, FromLE, Pow2;
    FromEncLE(v, n);
  }

  lemma I16RoundTrip(v: int, data: Bytes, pos: nat)
    requires IsInt16(v) && At(data, pos, EncI16LE(v))
    ensures GetI16LE(data, pos) == Got(v, pos + 2)
  {
    hide EncLE, GetLE, Pow2;
    WidthBounds();
    LERoundTrip(v % 0x1_0000, 2, data, pos);
  }

  lemma I16Range(data: Bytes, pos: nat)
    ensures GetI16LE(data, pos).Got? ==> IsInt16(GetI16LE(data, pos).value)
  {
    hide FromLE, Pow2;
    if pos + 2 <= |data| {
      WidthBounds();
      FromLEBound(data[pos..pos + 2]);
    }
  }

  lemma BERoundTrip(v: nat, n: nat, data: Bytes, pos: nat)
    requires v < Pow2(8 * n) && At(data, pos, EncBE(v, n))
    ensures GetBE(data, pos, n) == Got(v, pos + n)
  {
    hide EncLE, FromLE, Pow2, Reverse;
    ReverseTwice(EncLE(v, n));
    FromEncLE(v, n);
  }

  lemma StringRoundTrip(s: Bytes, data: Bytes, pos: nat)
    requires |s| < TWO_32 && At(data, pos, EncString(s))
    ensures GetString(data, pos) == Got(s, pos + |EncString(s)|)
  {
    hide EncVar, GetVar;
    AtSplit(data, pos, EncVar(|s|), s);
    VarRoundTrip(|s|, 32, data, pos);
  }

  lemma StringU32LERoundTrip(s: Bytes, data: Bytes, pos: nat)
    requires |s| < TWO_32 && At(data, pos, EncStringU32LE(s))
    ensures GetStringU32LE(data, pos) == Got(s, pos + 4 + |s|)
  {
    hide EncLE, GetLE, Pow2;
    AtSplit(data, pos, EncLE(|s|, 4), s);
    WidthBounds();
    LERoundTrip(|s|, 4, data, pos);
  }

  lemma SwapHalvesTwice(id: Uuid)
    ensures SwapHalves(SwapHalves(id)) == id
  {
    var r := SwapHalves(id);
    assert r[..8] == Reverse(id[..8]) && r[8..] == Reverse(id[8..]);
    ReverseTwice(id[..8]);
    ReverseTwice(id[8..]);
    assert id == id[..8] + id[8..];
  }

  lemma UUIDRoundTrip(id: Uuid, data: Bytes, pos: nat)
    requires At(data, pos, EncUUID(id))
    ensures GetUUID(data, pos) == Got(id, pos + 16)
  {
    SwapHalvesTwice(id);
  }
}
