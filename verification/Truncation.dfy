/** Encoded records need all of their bytes: what the decoders make of a prefix. */
module Truncation {
  import opened Common
  import opened Varint
  import opened Codec
  import opened Records
  import CR = ChunkRequest

  /** What is read from the first `n` bytes is read from all of them, and ends within the `n`. */
  predicate Stable<T(==)>(part: Read<T>, whole: Read<T>, n: nat) {
    part.Got? ==> whole == part && part.next <= n
  }

  lemma RawStable(data: Bytes, n: nat, pos: nat, k: nat)
    requires n <= |data|
    ensures Stable(GetRaw(data[..n], pos, k), GetRaw(data, pos, k), n)
    ensures Stable(GetU8(data[..n], pos), GetU8(data, pos), n)
    ensures Stable(GetBool(data[..n], pos), GetBool(data, pos), n)
  {
    if pos + k <= n {
      assert data[..n][pos..pos + k] == data[pos..pos + k];
    }
  }

  lemma {:induction false} ScanStable(data: Bytes, n: nat, pos: nat, max: nat)
    requires n <= |data| && ScanVar(data[..n], pos, max).Some?
    ensures ScanVar(data, pos, max) == ScanVar(data[..n], pos, max)
    decreases max
  {
    if data[pos] >= 128 {
      ScanStable(data, n, pos + 1, max - 1);
    }
  }

  lemma VarStable(data: Bytes, n: nat, pos: nat, w: nat)
    requires n <= |data|
    ensures Stable(GetVar(data[..n], pos, w), GetVar(data, pos, w), n)
  {
    hide Base128, Truncate;
    var scan := ScanVar(data[..n], pos, MaxLen(w));
    if scan.Some? {
      ScanStable(data, n, pos, MaxLen(w));
      assert data[..n][pos..pos + scan.value] == data[pos..pos + scan.value];
    }
  }

  lemma NumberStable(data: Bytes, n: nat, pos: nat, k: nat)
    requires n <= |data|
    ensures Stable(GetLE(data[..n], pos, k), GetLE(data, pos, k), n)
    ensures Stable(GetBE(data[..n], pos, k), GetBE(data, pos, k), n)
    ensures k == 2 ==> Stable(GetI16LE(data[..n], pos), GetI16LE(data, pos), n)
  {
    hide FromLE, Reverse;
    RawStable(data, n, pos, k);
  }

  lemma UUIDStable(data: Bytes, n: nat, pos: nat)
    requires n <= |data|
    ensures Stable(GetUUID(data[..n], pos), GetUUID(data, pos), n)
  {
    hide SwapHalves;
    RawStable(data, n, pos, 16);
  }

  lemma StringStable(data: Bytes, n: nat, pos: nat)
    requires n <= |data|
    ensures Stable(GetString(data[..n], pos), GetString(data, pos), n)
  {
    hide GetVar, GetRaw;
    VarStable(data, n, pos, 32);
    var length := GetVar(data[..n], pos, 32);
    if length.Got? {
      RawStable(data, n, length.next, length.value);
    }
  }

  // ----- Records -----

  /** No proper prefix of an encoded entry decodes, whatever stands before it. */
  lemma InfoNeedsAll(e: InfoEntry, data: Bytes, pos: nat, n: nat)
    requires e.Fits() && At(data, pos, EncInfo(e)) && n < pos + |EncInfo(e)|
    ensures GetInfo(data[..n], pos) == Throw
  {
    hide GetInfo, EncInfo;
    InfoRoundTrip(e, data, pos);
    InfoStable(data, n, pos);
  }

  lemma InfoStable(data: Bytes, n: nat, pos: nat)
    requires n <= |data|
    ensures Stable(GetInfo(data[..n], pos), GetInfo(data, pos), n)
  {
    hide GetUUID, GetString, GetLE, GetBool;
    var part := data[..n];
    var got := GetInfo(part, pos);
    if got.Got? {
      UUIDStable(data, n, pos);
      var p1 := GetUUID(part, pos).next;
      StringStable(data, n, p1);
      var p2 := GetString(part, p1).next;
      NumberStable(data, n, p2, 8);
      var p3 := GetLE(part, p2, 8).next;
      StringStable(data, n, p3);
      var p4 := GetString(part, p3).next;
      StringStable(data, n, p4);
      var p5 := GetString(part, p4).next;
      StringStable(data, n, p5);
      var p6 := GetString(part, p5).next;
      RawStable(data, n, p6, 0);
      var p7 := GetBool(part, p6).next;
      RawStable(data, n, p7, 0);
      var p8 := GetBool(part, p7).next;
      RawStable(data, n, p8, 0);
      StringStable(data, n, GetBool(part, p8).next);
    }
  }

  lemma LoginNeedsAll(l: Login, data: Bytes, pos: nat, n: nat)
    requires l.Fits() && At(data, pos, EncLogin(l)) && n < pos + |EncLogin(l)|
    ensures GetLogin(data[..n], pos) == Throw
  {
    hide GetLogin, EncLogin;
    LoginRoundTrip(l, data, pos);
    LoginStable(data, n, pos);
  }

  lemma LoginStable(data: Bytes, n: nat, pos: nat)
    requires n <= |data|
    ensures Stable(GetLogin(data[..n], pos), GetLogin(data, pos), n)
  {
    hide GetBE, GetString, GetStringU32LE;
    var part := data[..n];
    if GetLogin(part, pos).Got? {
      NumberStable(data, n, pos, 4);
      StringStable(data, n, GetBE(part, pos, 4).next);
    }
  }

  lemma ExperimentsNeedAll(e: ExperimentSet, data: Bytes, pos: nat, n: nat)
    requires e.Fits() && At(data, pos, EncExperiments(e)) && n < pos + |EncExperiments(e)|
    ensures GetExperiments(data[..n], pos) == Throw
  {
    hide GetExperiments, EncExperiments;
    ExperimentsRoundTrip(e, data, pos);
    ExperimentsStable(data, n, pos);
  }

  lemma ExperimentsStable(data: Bytes, n: nat, pos: nat)
    requires n <= |data|
    ensures Stable(GetExperiments(data[..n], pos), GetExperiments(data, pos), n)
  {
    hide GetLE, GetToggles, GetBool;
    var part := data[..n];
    if GetExperiments(part, pos).Got? {
      NumberStable(data, n, pos, 4);
      var total := GetLE(part, pos, 4);
      TogglesStable(data, n, total.next, total.value);
      RawStable(data, n, GetToggles(part, total.next, total.value).next, 0);
    }
  }

  lemma {:induction false} TogglesStable(data: Bytes, n: nat, pos: nat, count: nat)
    requires n <= |data| && GetToggles(data[..n], pos, count).Got? && (count == 0 ==> pos <= n)
    ensures Stable(GetToggles(data[..n], pos, count), GetToggles(data, pos, count), n)
    decreases count
  {
    hide GetString, GetBool;
    var part := data[..n];
    if count > 0 {
      StringStable(data, n, pos);
      var name := GetString(part, pos);
      RawStable(data, n, name.next, 0);
      TogglesStable(data, n, GetBool(part, name.next).next, count - 1);
    }
  }

  lemma RequestNeedsAll(x: CR.UuidText, id: Uuid, index: int, data: Bytes, pos: nat, n: nat)
    requires x.Lawful() && IsInt16(index) && At(data, pos, CR.EncChunkRequest(x, id, index))
    requires n < pos + |CR.EncChunkRequest(x, id, index)|
    ensures CR.GetChunkRequest(x, data[..n], pos) == Throw
  {
    hide GetString, GetI16LE, CR.EncChunkRequest;
    CR.RequestRoundTrip(x, id, index, data, pos);
    StringStable(data, n, pos);
    var text := GetString(data[..n], pos);
    if text.Got? {
      NumberStable(data, n, text.next, 2);
    }
  }
}
