/** `BinaryReader` and `BinaryWriter`: a moving cursor and a growing buffer. */
module BinaryIO {
  import opened Common
  import opened Bits
  import opened Varint
  import opened Codec

  /** `r` and the new cursor are what the read function says; an exception leaves no value. */
  ghost predicate Follows<T>(g: Read<T>, r: Option<T>, offset: nat) {
    match g
    case Throw => r.None?
    case Got(v, next) => r == Some(v) && offset == next
  }

  class BinaryReader {
    const data: Bytes
    var offset: nat

    /** Buffers are far smaller than the address space, so `offset + n` never wraps. */
    ghost predicate Valid()
      reads this
    {
      |data| < TWO_64 / 4 && offset < TWO_64 / 2
    }

    constructor (data: Bytes)
      requires |data| < TWO_64 / 4
      ensures Valid() && this.data == data && offset == 0
    {
      this.data := data;
      offset := 0;
    }

    /** `size_t` subtraction: a cursor past the end makes this huge, not negative. */
    function Remaining(): (n: nat)
      requires Valid()
      reads this
      ensures n == 0 <==> offset == |data|
    {
      (|data| - offset) % TWO_64
    }

    predicate Readable(n: nat)
      requires Valid() && n <= TWO_32
      reads this
      ensures Readable(n) <==> offset + n <= |data|
    {
      (offset + n) % TWO_64 <= |data|
    }

    method ReadU8() returns (r: Option<byte>)
      requires Valid()
      modifies this
      ensures Valid()
      ensures Follows(GetU8(data, old(offset)), r, offset)
      ensures r.None? ==> offset == old(offset)
    {
      if !Readable(1) {
        return None;
      }
      r := Some(data[offset]);
      offset := offset + 1;
    }

    method ReadBool() returns (r: Option<bool>)
      requires Valid()
      modifies this
      ensures Valid()
      ensures Follows(GetBool(data, old(offset)), r, offset)
    {
      var b :- ReadU8();
      r := Some(b != 0);
    }

    /** `readBytesVector`, and the copy inside every fixed-width and string read. */
    method ReadRaw(n: nat) returns (r: Option<Bytes>)
      requires Valid() && n <= TWO_32
      modifies this
      ensures Valid()
      ensures Follows(GetRaw(data, old(offset), n), r, offset)
    {
      if !Readable(n) {
        return None;
      }
      r := Some(data[offset..offset + n]);
      offset := offset + n;
    }

    method ReadLE(n: nat) returns (r: Option<nat>)
      requires Valid() && n <= 8
      modifies this
      ensures Valid()
      ensures Follows(GetLE(data, old(offset), n), r, offset)
    {
      var bytes :- ReadRaw(n);
      r := Some(FromLE(bytes));
    }

    method ReadI16LE() returns (r: Option<int>)
      requires Valid()
      modifies this
      ensures Valid()
      ensures Follows(GetI16LE(data, old(offset)), r, offset)
    {
      var n :- ReadLE(2);
      r := Some(Int16(n));
    }

    method ReadBE(n: nat) returns (r: Option<nat>)
      requires Valid() && n <= 8
      modifies this
      ensures Valid()
      ensures Follows(GetBE(data, old(offset), n), r, offset)
    {
      var bytes :- ReadRaw(n);
      r := Some(FromLE(Reverse(bytes)));
    }

    /** `readVarUInt` (w == 32) and `readVarULong` (w == 64). */
    method ReadVar(w: nat) returns (r: Option<nat>)
      requires Valid() && IsWidth(w)
      modifies this
      ensures Valid()
      ensures Follows(GetVar(data, old(offset), w), r, offset)
      ensures r.Some? ==> r.value < Top(w)
    {
      hide Base128, BitOr, ScanVar, Pow2, Truncate;
      ghost var start := offset;
      ghost var prefix: Bytes := [];
      var value, shift := 0, 0;
      NothingRead(w);
      for i := 0 to MaxLen(w)
        invariant Valid() && offset == start + i && |prefix| == i && shift == 7 * i
        invariant i > 0 ==> offset <= |data| && prefix == data[start..offset]
        invariant forall k :: start <= k < offset ==> data[k] >= 128
        invariant value == Truncate(Base128(prefix), w)
      {
        var next := ReadU8();
        if next.None? {
          ScanVarCases(data, start, i, MaxLen(w));
          return None;
        }
        var b := next.value;
        value := OrSeptet(prefix, value, b, shift, w);
        prefix := Extend(data, start, i, prefix);
        if b < 128 {
          ScanVarCases(data, start, i, MaxLen(w));
          return Some(value);
        }
        shift := shift + 7;
      }
      ScanVarCases(data, start, MaxLen(w), MaxLen(w));
      return None;
    }

    method ReadSigned(w: nat) returns (r: Option<int>)
      requires Valid() && IsWidth(w)
      modifies this
      ensures Valid()
      ensures Follows(GetSigned(data, old(offset), w), r, offset)
    {
      var v :- ReadVar(w);
      r := Some(ReaderMap(v, w));
    }

    method ReadString() returns (r: Option<Bytes>)
      requires Valid()
      modifies this
      ensures Valid()
      ensures Follows(GetString(data, old(offset)), r, offset)
    {
      var len :- ReadVar(32);
      r := ReadRaw(len);
    }

    method ReadStringU32LE() returns (r: Option<Bytes>)
      requires Valid()
      modifies this
      ensures Valid()
      ensures Follows(GetStringU32LE(data, old(offset)), r, offset)
    {
      var len :- ReadLE(4);
      PowValues();
      FromLEBound(data[old(offset)..offset]);
      r := ReadRaw(len);
    }

    /** `readUUID`: two loops, each copying eight bytes back to front. */
    method ReadUUID() returns (r: Option<Uuid>)
      requires Valid()
      modifies this
      ensures Valid()
      ensures Follows(GetUUID(data, old(offset)), r, offset)
    {
      hide Reverse;
      if !Readable(16) {
        return None;
      }
      ghost var start := offset;
      var low := CopyReversed();
      offset := offset + 8;
      var high := CopyReversed();
      offset := offset + 8;
      assert data[start..start + 16][..8] == data[start..start + 8];
      assert data[start..start + 16][8..] == data[start + 8..start + 16];
      r := Some(low + high);
    }

    /** One of the two loops of `readUUID`. */
    method CopyReversed() returns (bytes: Bytes)
      requires offset + 8 <= |data|
      ensures bytes == Reverse(data[offset..offset + 8])
    {
      bytes := [];
      for i := 0 to 8
        invariant bytes == Reverse(data[offset + 8 - i..offset + 8])
      {
        assert data[offset + 7 - i..offset + 8][1..] == data[offset + 8 - i..offset + 8];
        bytes := bytes + [data[offset + 7 - i]];
      }
    }
  }

  /**
   `value |= static_cast<T>(b & 0x7F) << shift`: or-ing the shifted low seven bits into the value
   adds them, modulo 2^w, because all bits from `shift` up are still clear.
   */
  method OrSeptet(ghost prefix: Bytes, value: nat, b: byte, shift: nat, w: nat) returns (r: nat)
    requires IsWidth(w) && |prefix| < MaxLen(w)
    requires shift == 7 * |prefix| && value == Truncate(Base128(prefix), w)
    ensures r == Truncate(Base128(prefix + [b]), w)
  {
    ShortPrefixFits(prefix, w);
    Base128Bound(prefix);
    Base128Snoc(prefix, b);
    OrTruncated(value, b % 128, shift, w);
    r := BitOr(value, Truncate((b % 128) * Pow2(shift), w));
  }

  /** The bytes read so far, with the one at `start + i` added. */
  ghost function Extend(data: Bytes, start: nat, i: nat, prefix: Bytes): (r: Bytes)
    requires start + i < |data| && |prefix| == i
    requires i > 0 ==> prefix == data[start..start + i]
    ensures r == prefix + [data[start + i]] == data[start..start + i + 1]
  {
    prefix + [data[start + i]]
  }

  lemma NothingRead(w: nat)
    ensures Truncate(Base128([]), w) == 0
  {}

  lemma ShortPrefixFits(prefix: Bytes, w: nat)
    requires IsWidth(w) && |prefix| < MaxLen(w)
    ensures Truncate(Base128(prefix), w) == Base128(prefix)
  {
    Base128Bound(prefix);
    PowMonotone(7 * |prefix|, w);
    TopIsPower(w);
  }

  class BinaryWriter {
    var buffer: Bytes

    constructor ()
      ensures buffer == []
    {
      buffer := [];
    }

    method WriteBool(v: bool)
      modifies this
      ensures buffer == old(buffer) + EncBool(v)
    {
      buffer := buffer + [if v then 1 else 0];
    }

    method WriteBytes(bytes: Bytes)
      modifies this
      ensures buffer == old(buffer) + bytes
    {
      buffer := buffer + bytes;
    }

    method WriteLE(v: nat, n: nat)
      modifies this
      ensures buffer == old(buffer) + EncLE(v, n)
    {
      buffer := buffer + EncLE(v, n);
    }

    method WriteBE(v: nat, n: nat)
      modifies this
      ensures buffer == old(buffer) + EncBE(v, n)
    {
      buffer := buffer + EncBE(v, n);
    }

    /** `writeVarUInt` and `writeVarULong`. */
    method WriteVar(v0: nat)
      modifies this
      ensures buffer == old(buffer) + EncVar(v0)
    {
      var v := v0;
      while v >= 0x80
        invariant buffer + EncVar(v) == old(buffer) + EncVar(v0)
      {
        assert buffer + EncVar(v) == (buffer + [v % 128 + 128]) + EncVar(v / 128);
        buffer := buffer + [v % 128 + 128];
        v := v / 128;
      }
      buffer := buffer + [v];
    }

    method WriteSigned(v: int, w: nat)
      requires IsWidth(w) && IsSigned(v, w)
      modifies this
      ensures buffer == old(buffer) + EncSigned(v, w)
    {
      WriteVar(BitXor(Truncate(2 * v, w), if v % 2 == 1 then Top(w) - 1 else 0));
    }

    method WriteString(s: Bytes)
      modifies this
      ensures buffer == old(buffer) + EncString(s)
    {
      WriteVar(|s| % TWO_32);
      buffer := buffer + s;
    }

    method WriteStringU32LE(s: Bytes)
      modifies this
      ensures buffer == old(buffer) + EncStringU32LE(s)
    {
      WriteLE(|s| % TWO_32, 4);
      WriteBytes(s);
    }

    /** `writeUUID` reverses the two halves of a copy and appends it. */
    method WriteUUID(id: Uuid)
      modifies this
      ensures buffer == old(buffer) + EncUUID(id)
    {
      var low, high := Reverse(id[..8]), Reverse(id[8..]);
      WriteBytes(low + high);
    }
  }

  /** `getVarUIntSize`/`getVarULongSize`: the size function counts exactly the bytes written. */
  method GetVarSize(v0: nat) returns (len: nat)
    ensures len == |EncVar(v0)|
  {
    len := 1;
    var v: nat := v0 / 128;
    while v != 0
      decreases v
      invariant len + (if v == 0 then 0 else |EncVar(v)|) == |EncVar(v0)|
    {
      len := len + 1;
      v := v / 128;
    }
  }

  /** `getVarIntSize`/`getVarLongSize`: the same mistaken map as the writer, so the sizes agree. */
  method GetSignedSize(v: int, w: nat) returns (len: nat)
    requires IsWidth(w) && IsSigned(v, w)
    ensures len == |EncSigned(v, w)|
  {
    len := GetVarSize(BitXor(Truncate(2 * v, w), if v % 2 == 1 then Top(w) - 1 else 0));
  }
}
