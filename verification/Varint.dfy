/**
 Variable-length integers: unsigned LEB128 (section 7.6 of DWARF 5) and the signed forms on top.
 The width `w` is 32 or 64 in the program; `MaxLen` is the number of bytes its readers allow.
 */
module Varint {
  import opened Common
  import opened Bits

  predicate IsWidth(w: nat) { w == 32 || w == 64 }

  function MaxLen(w: nat): nat { if w == 32 then 5 else 10 }

  /** 2^w and 2^(w-1). */
  function Top(w: nat): nat { if w == 32 then TWO_32 else TWO_64 }

  function Half(w: nat): nat { if w == 32 then TWO_32 / 2 else TWO_64 / 2 }

  /** Conversion to an unsigned integer of `w` bits. */
  function Truncate(v: int, w: nat): (r: nat)
    ensures r < Top(w)
  {
    if w == 32 then v % TWO_32 else v % TWO_64
  }

  lemma TopIsPower(w: nat)
    requires IsWidth(w)
    ensures Top(w) == Pow2(w)
  {
    PowValues();
  }

  /** `OrShifted` for a destination of `w` bits. */
  lemma OrTruncated(a: nat, x: nat, s: nat, w: nat)
    requires IsWidth(w) && s <= w && a < Pow2(s)
    ensures BitOr(a, Truncate(x * Pow2(s), w)) == Truncate(a + x * Pow2(s), w)
  {
    hide BitOr, Pow2, Truncate;
    OrShifted(a, x, s, w);
    TruncateIsMod(x * Pow2(s), w);
    TruncateIsMod(a + x * Pow2(s), w);
  }

  lemma TruncateIsMod(v: nat, w: nat)
    requires IsWidth(w)
    ensures Truncate(v, w) == v % Pow2(w)
  {
    PowValues();
    if w == 32 {
      assert Pow2(w) == TWO_32;
    } else {
      assert Pow2(w) == TWO_64;
    }
  }

  /** The bytes `writeVarUInt`/`writeVarULong` append. */
  function EncVar(v: nat): (r: Bytes)
    ensures |r| >= 1
  {
    if v < 128 then [v] else [v % 128 + 128] + EncVar(v / 128)
  }

  /** The number the low seven bits of each byte spell, least significant group first. */
  function Base128(bs: Bytes): nat {
    if bs == [] then 0 else bs[0] % 128 + 128 * Base128(bs[1..])
  }

  /** The length of the varint at `pos`: up to and including the first byte below 128. */
  function ScanVar(data: Bytes, pos: nat, max: nat): (n: Option<nat>)
    ensures n.Some? ==> 1 <= n.value <= max && pos + n.value <= |data|
    decreases max
  {
    if max == 0 || pos >= |data| then None
    else if data[pos] < 128 then Some(1)
    else
      var n :- ScanVar(data, pos + 1, max - 1);
      Some(n + 1)
  }

  /** What a `w`-bit varint read at `pos` means: the base-128 sum modulo 2^w, or an exception. */
  function GetVar(data: Bytes, pos: nat, w: nat): Read<nat> {
    match ScanVar(data, pos, MaxLen(w))
    case None => Throw
    case Some(n) => Got(Truncate(Base128(data[pos..pos + n]), w), pos + n)
  }

  // ----- Facts about the two directions -----

  lemma {:induction false} Base128Bound(bs: Bytes)
    ensures Base128(bs) < Pow2(7 * |bs|)
  {
    if bs != [] {
      Base128Bound(bs[1..]);
      PowValues();
      PowAdd(7, 7 * |bs[1..]|);
    }
  }

  /** The digits of the sum are the low seven bits of the bytes. */
  lemma {:induction false} Base128Digits(bs: Bytes, i: nat)
    requires i < |bs|
    ensures Digit(Base128(bs), 128, i) == bs[i] % 128
  {
    if i > 0 {
      Base128Digits(bs[1..], i - 1);
    }
  }

  lemma {:induction false} Base128Snoc(bs: Bytes, b: byte)
    ensures Base128(bs + [b]) == Base128(bs) + (b % 128) * Pow2(7 * |bs|)
  {
    if bs == [] {
      assert bs + [b] == [b];
    } else {
      var t := bs[1..];
      assert (bs + [b])[1..] == t + [b];
      Base128Snoc(t, b);
      SeptetShift(b % 128, |t|);
    }
  }

  lemma SeptetShift(x: nat, n: nat)
    ensures 128 * (x * Pow2(7 * n)) == x * Pow2(7 * (n + 1))
  {
    PowValues();
    PowAdd(7, 7 * n);
    assert 128 * (x * Pow2(7 * n)) == x * (128 * Pow2(7 * n));
  }

  lemma {:induction false} EncVarLength(v: nat, n: nat)
    requires n > 0 && v < Pow2(7 * n)
    ensures |EncVar(v)| <= n
  {
    if v >= 128 {
      PowValues();
      if n == 1 {
        assert false;
      }
      PowAdd(7, 7 * (n - 1));
      EncVarLength(v / 128, n - 1);
    }
  }

  lemma EncVarFits(v: nat, w: nat)
    requires IsWidth(w) && v < Top(w)
    ensures |EncVar(v)| <= MaxLen(w)
  {
    TopIsPower(w);
    PowMonotone(w, 7 * MaxLen(w));
    EncVarLength(v, MaxLen(w));
  }

  lemma {:induction false} Base128EncVar(v: nat)
    ensures Base128(EncVar(v)) == v
  {
    if v >= 128 {
      Base128EncVar(v / 128);
      assert EncVar(v)[1..] == EncVar(v / 128);
    }
  }

  /** Each byte of the written form: seven bits of the value, and whether more follow. */
  lemma {:induction false} EncVarBytes(v: nat, i: nat)
    requires i < |EncVar(v)|
    ensures EncVar(v)[i] == Digit(v, 128, i) + if i + 1 < |EncVar(v)| then 128 else 0
  {
    if v >= 128 {
      assert EncVar(v)[1..] == EncVar(v / 128);
      if i > 0 {
        EncVarBytes(v / 128, i - 1);
      }
    }
  }

  lemma {:induction false} ScanEncVar(v: nat, data: Bytes, pos: nat, max: nat)
    requires At(data, pos, EncVar(v)) && |EncVar(v)| <= max
    ensures ScanVar(data, pos, max) == Some(|EncVar(v)|)
  {
    AtIndex(data, pos, EncVar(v));
    assert data[pos + 0] == EncVar(v)[0];
    if v >= 128 {
      AtSplit(data, pos, [v % 128 + 128], EncVar(v / 128));
      ScanEncVar(v / 128, data, pos + 1, max - 1);
    }
  }

  /** Reading what was written, with anything before and after, returns it and consumes exactly it. */
  lemma VarRoundTrip(v: nat, w: nat, data: Bytes, pos: nat)
    requires IsWidth(w) && v < Top(w)
    requires At(data, pos, EncVar(v))
    ensures GetVar(data, pos, w) == Got(v, pos + |EncVar(v)|)
  {
    EncVarFits(v, w);
    ScanEncVar(v, data, pos, MaxLen(w));
    Base128EncVar(v);
  }

  /** The written form is minimal: no accepted form of the same value is shorter. */
  lemma VarShortest(data: Bytes, pos: nat, w: nat)
    requires IsWidth(w) && GetVar(data, pos, w).Got?
    ensures pos + |EncVar(GetVar(data, pos, w).value)| <= GetVar(data, pos, w).next
  {
    var n := ScanVar(data, pos, MaxLen(w)).value;
    Base128Bound(data[pos..pos + n]);
    EncVarLength(GetVar(data, pos, w).value, n);
  }

  /** The three ways a scan over `n` continuation bytes can go on. */
  lemma {:induction false} ScanVarCases(data: Bytes, pos: nat, n: nat, max: nat)
    requires n <= max && (n > 0 ==> pos + n <= |data|)
    requires forall k :: pos <= k < pos + n ==> data[k] >= 128
    ensures n == max || pos + n >= |data| ==> ScanVar(data, pos, max) == None
    ensures n < max && pos + n < |data| && data[pos + n] < 128 ==> ScanVar(data, pos, max) == Some(n + 1)
    decreases n
  {
    if n > 0 {
      ScanVarCases(data, pos + 1, n - 1, max - 1);
    }
  }

  // ----- Signed forms -----

  predicate IsSigned(v: int, w: nat) {
    0 <= v + Half(w) && v < Half(w)
  }

  function ToSigned(u: nat, w: nat): int {
    if u < Half(w) then u else u - Top(w)
  }

  /** `static_cast<uintW_t>(v << 1 ^ -(v & 1))`, as the writer maps a signed value. */
  function WriterMap(v: int, w: nat): nat {
    BitXor(Truncate(2 * v, w), if v % 2 == 1 then Top(w) - 1 else 0)
  }

  /** `static_cast<intW_t>((v >> 1) ^ (~(v & 1) + 1))`, as the reader maps it back. */
  function ReaderMap(u: nat, w: nat): int {
    ToSigned(BitXor(u / 2, if u % 2 == 1 then Top(w) - 1 else 0), w)
  }

  /** Zig-zag as Protocol Buffers Encoding, "Signed Integers", defines it. */
  function ZigZag(v: int): nat {
    if v >= 0 then 2 * v else -2 * v - 1
  }

  lemma ReaderMapForm(u: nat, w: nat)
    requires IsWidth(w) && u < Top(w)
    ensures ReaderMap(u, w) == if u % 2 == 0 then u / 2 else -(u / 2) - 1
  {
    TopIsPower(w);
    if u % 2 == 0 {
      XorZero(u / 2);
    } else {
      XorOnes(u / 2, w);
    }
  }

  function WriterForm(v: int, w: nat): int {
    var low := if v >= 0 then 2 * v else 2 * v + Top(w);
    if v % 2 == 0 then low else Top(w) - 1 - low
  }

  lemma WriterMapForm(v: int, w: nat)
    requires IsWidth(w) && IsSigned(v, w)
    ensures WriterMap(v, w) == WriterForm(v, w)
  {
    var low := if v >= 0 then 2 * v else 2 * v + Top(w);
    assert Truncate(2 * v, w) == low;
    TopIsPower(w);
    if v % 2 == 0 {
      XorZero(low);
    } else {
      XorOnes(low, w);
    }
  }

  /** The reader inverts the standard zig-zag map on the whole signed range. */
  lemma ReaderInvertsZigZag(v: int, w: nat)
    requires IsWidth(w) && IsSigned(v, w)
    ensures ZigZag(v) < Top(w)
    ensures ReaderMap(ZigZag(v), w) == v
  {
    ReaderMapForm(ZigZag(v), w);
  }

  /** What the reader makes of a written value: right only when the sign agrees with the low bit. */
  lemma ReaderOfWriter(v: int, w: nat)
    requires IsWidth(w) && IsSigned(v, w)
    ensures WriterMap(v, w) < Top(w)
    ensures ReaderMap(WriterMap(v, w), w) ==
            if v < 0 <==> v % 2 == 1 then v
            else if v < 0 then v + Half(w)
            else v - Half(w)
  {
    hide WriterMap, ReaderMap;
    WriterMapForm(v, w);
    HalfIsEven(w);
    var half, u, odd := Half(w), WriterMap(v, w), v % 2 == 1;
    assert u == if !odd then (if v >= 0 then 2 * v else 2 * v + 2 * half)
                else 2 * half - 1 - (if v >= 0 then 2 * v else 2 * v + 2 * half);
    hide *;
    Halve(v, odd, half, u);
    ReaderMapForm(u, w);
  }

  lemma Halve(v: int, odd: bool, half: nat, u: nat)
    requires 0 <= v + half && v < half
    requires u == if !odd then (if v >= 0 then 2 * v else 2 * v + 2 * half)
                  else 2 * half - 1 - (if v >= 0 then 2 * v else 2 * v + 2 * half)
    ensures u < 2 * half
    ensures (if u % 2 == 0 then u / 2 else -(u / 2) - 1) ==
            if v < 0 <==> odd then v else if v < 0 then v + half else v - half
  {
    var h := if v >= 0 then v else v + half;
    Halves(h);
    Halves(half - h - 1);
    assert u == if odd then 2 * (half - h - 1) + 1 else 2 * h;
  }

  lemma Halves(k: nat)
    ensures (2 * k) / 2 == k && (2 * k) % 2 == 0 && (2 * k + 1) / 2 == k && (2 * k + 1) % 2 == 1
  {}

  /** Two values share a written form exactly when they agree modulo 2^(w-1). */
  lemma WriterCollisions(a: int, b: int, w: nat)
    requires IsWidth(w) && IsSigned(a, w) && IsSigned(b, w)
    ensures WriterMap(a, w) == WriterMap(b, w) <==> a == b || a - b == Half(w) || b - a == Half(w)
  {
    WriterMapForm(a, w);
    WriterMapForm(b, w);
    FormCollisions(a, b, w);
  }

  lemma FormCollisions(a: int, b: int, w: nat)
    requires IsWidth(w) && IsSigned(a, w) && IsSigned(b, w)
    ensures WriterForm(a, w) == WriterForm(b, w) <==> a == b || a - b == Half(w) || b - a == Half(w)
  {
    HalfIsEven(w);
    hide Top, Half, WriterForm;
    if a % 2 == b % 2 {
      SameParity(a, b, w);
    } else {
      FormParity(a, w);
      FormParity(b, w);
    }
  }

  lemma HalfIsEven(w: nat)
    ensures Top(w) == 2 * Half(w) && Half(w) % 2 == 0
  {}

  lemma FormParity(v: int, w: nat)
    ensures WriterForm(v, w) % 2 == v % 2
  {
    HalfIsEven(w);
    var half, odd, u := Half(w), v % 2 == 1, WriterForm(v, w);
    var h := if v >= 0 then v else v + half;
    assert u == if odd then 2 * (half - h) - 1 else 2 * h;
    hide *;
    OddOrEven(u, half - h, h, odd);
  }

  lemma OddOrEven(u: int, k: int, h: int, odd: bool)
    requires u == if odd then 2 * k - 1 else 2 * h
    ensures u % 2 == if odd then 1 else 0
  {}

  lemma SameParity(a: int, b: int, w: nat)
    requires IsWidth(w) && IsSigned(a, w) && IsSigned(b, w) && a % 2 == b % 2 && Top(w) == 2 * Half(w)
    ensures WriterForm(a, w) == WriterForm(b, w) <==> a == b || a - b == Half(w) || b - a == Half(w)
  {
    hide Top, Half;
    var la := if a >= 0 then 2 * a else 2 * a + Top(w);
    var lb := if b >= 0 then 2 * b else 2 * b + Top(w);
    assert WriterForm(a, w) == WriterForm(b, w) <==> la == lb;
  }

  function EncSigned(v: int, w: nat): Bytes {
    EncVar(WriterMap(v, w))
  }

  function GetSigned(data: Bytes, pos: nat, w: nat): Read<int> {
    var (u, next) :- GetVar(data, pos, w);
    Got(ReaderMap(u, w), next)
  }

  /** End to end: a signed value written and read back is recovered iff (negative iff odd). */
  lemma SignedRoundTripExactly(v: int, w: nat, data: Bytes, pos: nat)
    requires IsWidth(w) && IsSigned(v, w)
    requires At(data, pos, EncSigned(v, w))
    ensures GetSigned(data, pos, w).Got? && GetSigned(data, pos, w).next == pos + |EncSigned(v, w)|
    ensures GetSigned(data, pos, w).value == v <==> (v < 0 <==> v % 2 == 1)
  {
    ReaderOfWriter(v, w);
    VarRoundTrip(WriterMap(v, w), w, data, pos);
  }

  /** Had the writer used the standard map, every value would be recovered. */
  lemma ZigZagRoundTrip(v: int, w: nat, data: Bytes, pos: nat)
    requires IsWidth(w) && IsSigned(v, w)
    requires At(data, pos, EncVar(ZigZag(v)))
    ensures GetSigned(data, pos, w) == Got(v, pos + |EncVar(ZigZag(v))|)
  {
    ReaderInvertsZigZag(v, w);
    VarRoundTrip(ZigZag(v), w, data, pos);
  }

  /** One is such a value: the bytes written for 1 are those written for 1 - 2^31, and are read as that. */
  lemma OneIsNotRecovered(v: int, data: Bytes, pos: nat)
    requires v == 1 && At(data, pos, EncSigned(v, 32))
    ensures GetSigned(data, pos, 32) == Got(1 - 0x8000_0000, pos + |EncSigned(v, 32)|)
    ensures EncSigned(v, 32) == EncSigned(v - 0x8000_0000, 32)
  {
    hide WriterMap, ReaderMap, EncVar, GetVar;
    ReaderOfWriter(v, 32);
    VarRoundTrip(WriterMap(v, 32), 32, data, pos);
    WriterCollisions(v, v - 0x8000_0000, 32);
  }
}
