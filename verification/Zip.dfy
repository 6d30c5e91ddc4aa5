/** `util::zip::extractFile`: the end record, the central directory and the local header. */
module Zip {
  import opened Common
  import opened Bits
  import opened Codec

  const LOCAL_SIGNATURE: nat := 0x04034b50
  const CENTRAL_SIGNATURE: nat := 0x02014b50
  const END_SIGNATURE: nat := 0x06054b50
  const MAX_TAIL: nat := 65557

  datatype ZipEntry = ZipEntry(
    crc32: nat, csize: nat, usize: nat, localHeaderOffset: nat, compMethod: nat, gpFlags: nat, name: Bytes)

  /** The exceptions thrown, and `OutOfBounds` where the program would read past a buffer. */
  datatype ZipError =
    | TooSmall | NoEndRecord | DirectoryPastEnd | DirectoryShort | OutOfBounds | NotFound
    | LocalShort | BadLocalSignature | DataPastEnd | DataShort

  datatype Extraction = Extracted(data: Bytes, entry: ZipEntry) | Fails(error: ZipError)

  // ----- Numbers -----

  /** `uint16_t(p[0]) | (uint16_t(p[1]) << 8)`. */
  function Le16(b: Bytes, p: nat): nat
    requires p + 2 <= |b|
  {
    BitOr(b[p], (b[p + 1] as nat) * 0x100)
  }

  /** The same with four bytes. */
  function Le32(b: Bytes, p: nat): nat
    requires p + 4 <= |b|
  {
    BitOr(BitOr(BitOr(b[p], (b[p + 1] as nat) * 0x100), (b[p + 2] as nat) * 0x1_0000), (b[p + 3] as nat) * 0x100_0000)
  }

  lemma Le16IsLE(b: Bytes, p: nat)
    requires p + 2 <= |b|
    ensures Le16(b, p) == FromLE(b[p..p + 2]) < 0x1_0000
  {
    PowValues();
    OrDisjoint(b[p], b[p + 1], 8);
    assert b[p..p + 2] == [b[p], b[p + 1]];
    assert FromLE([b[p + 1]]) == b[p + 1];
    assert [b[p], b[p + 1]][1..] == [b[p + 1]];
  }

  lemma Le32IsLE(b: Bytes, p: nat)
    requires p + 4 <= |b|
    ensures Le32(b, p) == FromLE(b[p..p + 4]) < TWO_32
  {
    PowValues();
    OrDisjoint(b[p], b[p + 1], 8);
    OrDisjoint(b[p] + (b[p + 1] as nat) * 0x100, b[p + 2], 16);
    OrDisjoint(b[p] + (b[p + 1] as nat) * 0x100 + (b[p + 2] as nat) * 0x1_0000, b[p + 3], 24);
    FromFour(b[p..p + 4]);
  }

  lemma FromFour(s: Bytes)
    requires |s| == 4
    ensures FromLE(s) == s[0] + 0x100 * (s[1] as nat) + 0x1_0000 * (s[2] as nat) + 0x100_0000 * (s[3] as nat)
  {
    assert FromLE(s) == s[0] + 256 * FromLE(s[1..]);
    assert FromLE(s[1..]) == s[1] + 256 * FromLE(s[1..][1..]);
    assert s[1..][1..] == [s[2], s[3]] && [s[2], s[3]][1..] == [s[3]];
    assert FromLE([s[3]]) == s[3];
  }

  // ----- What the extractor computes -----

  predicate EndAt(tail: Bytes, i: nat)
    requires i + 4 <= |tail|
  {
    tail[i] == 0x50 && tail[i + 1] == 0x4b && tail[i + 2] == 0x05 && tail[i + 3] == 0x06
  }

  /** The last end signature at or before `i`. */
  function FindEnd(tail: Bytes, i: int): (r: int)
    requires i + 4 <= |tail|
    ensures -1 <= r && (r >= 0 ==> r <= i && EndAt(tail, r))
    decreases i + 1
  {
    if i < 0 then -1 else if EndAt(tail, i) then i else FindEnd(tail, i - 1)
  }

  datatype Search = Hit(entry: ZipEntry) | Miss | Overrun

  function EntryAt(central: Bytes, p: nat): ZipEntry
    requires p + 46 <= |central| && p + 46 + Le16(central, p + 28) <= |central|
  {
    ZipEntry(Le32(central, p + 16), Le32(central, p + 20), Le32(central, p + 24), Le32(central, p + 42),
             Le16(central, p + 10), Le16(central, p + 8), central[p + 46..p + 46 + Le16(central, p + 28)])
  }

  /** The walk over the central directory from `p`. */
  function FindEntry(central: Bytes, p: nat, name: Bytes): Search
    decreases |central| - p
  {
    if p + 4 > |central| || Le32(central, p) != CENTRAL_SIGNATURE then Miss
    else if p + 46 > |central| then Overrun
    else if p + 46 + Le16(central, p + 28) > |central| then Miss
    else if EntryAt(central, p).name == name then Hit(EntryAt(central, p))
    else FindEntry(central, p + 46 + Le16(central, p + 28) + Le16(central, p + 30) + Le16(central, p + 32), name)
  }

  /** What reading `n` bytes at `pos` yields: fewer when the file ends first. */
  function ReadAt(file: Bytes, pos: nat, n: nat): (r: Bytes)
    ensures |r| <= n
    ensures |r| == n && n > 0 ==> pos + n <= |file| && r == file[pos..pos + n]
    ensures pos + n <= |file| ==> r == file[pos..pos + n]
  {
    if pos >= |file| then [] else if pos + n <= |file| then file[pos..pos + n] else file[pos..]
  }

  function ReadMember(file: Bytes, entry: ZipEntry): Extraction {
    var header := ReadAt(file, entry.localHeaderOffset, 30);
    if |header| != 30 then Fails(LocalShort)
    else if Le32(header, 0) != LOCAL_SIGNATURE then Fails(BadLocalSignature)
    else
      var dataOffset := entry.localHeaderOffset + 30 + Le16(header, 26) + Le16(header, 28);
      if dataOffset + entry.csize > |file| then Fails(DataPastEnd)
      else
        var data := ReadAt(file, dataOffset, entry.csize);
        if |data| != entry.csize then Fails(DataShort) else Extracted(data, entry)
  }

  function TailSize(file: Bytes): (n: nat)
    ensures n <= |file|
  {
    if |file| < MAX_TAIL then |file| else MAX_TAIL
  }

  datatype Located = Found(central: Bytes) | NoDirectory(error: ZipError)

  /** From the end record to the bytes of the central directory. */
  function Locate(file: Bytes): Located {
    if |file| < 22 then NoDirectory(TooSmall)
    else
      var tail := file[|file| - TailSize(file)..];
      var end := FindEnd(tail, |tail| - 22);
      if end < 0 then NoDirectory(NoEndRecord)
      else
        var size, offset := Le32(tail, end + 12), Le32(tail, end + 16);
        if (offset + size) % TWO_32 > |file| % TWO_32 then NoDirectory(DirectoryPastEnd)
        else
          var central := ReadAt(file, offset, size);
          if |central| != size then NoDirectory(DirectoryShort) else Found(central)
  }

  function Extract(file: Bytes, name: Bytes): Extraction {
    match Locate(file)
    case NoDirectory(error) => Fails(error)
    case Found(central) =>
      match FindEntry(central, 0, name)
      case Overrun => Fails(OutOfBounds)
      case Miss => Fails(NotFound)
      case Hit(entry) => ReadMember(file, entry)
  }

  // ----- What each error means -----

  lemma {:induction false} FindEndIff(tail: Bytes, i: int)
    requires i + 4 <= |tail|
    ensures FindEnd(tail, i) == -1 <==> forall j :: 0 <= j <= i ==> !EndAt(tail, j)
    ensures forall j :: 0 <= FindEnd(tail, i) < j <= i ==> !EndAt(tail, j)
    decreases i + 1
  {
    if i >= 0 && !EndAt(tail, i) {
      FindEndIff(tail, i - 1);
    }
  }

  predicate EndSignature(file: Bytes, j: nat) {
    j + 4 <= |file| && file[j..j + 4] == [0x50, 0x4b, 0x05, 0x06]
  }

  lemma EndInTail(file: Bytes, start: nat, j: nat)
    requires start + j + 4 <= |file|
    ensures EndAt(file[start..], j) <==> EndSignature(file, start + j)
  {
    var tail, p := file[start..], start + j;
    assert file[p..p + 4] == [file[p], file[p + 1], file[p + 2], file[p + 3]];
    assert tail[j] == file[p] && tail[j + 1] == file[p + 1] && tail[j + 2] == file[p + 2] && tail[j + 3] == file[p + 3];
  }

  /** A file is too small iff it cannot hold an end record; the other outcomes need 22 bytes. */
  lemma TooSmallIff(file: Bytes, name: Bytes)
    ensures Extract(file, name) == Fails(TooSmall) <==> |file| < 22
  {
    hide FindEnd, Le32, ReadAt, FindEntry;
    if |file| >= 22 && Locate(file).Found? {
      var search := FindEntry(Locate(file).central, 0, name);
      if search.Hit? {
        ReadMemberIs(file, search.entry);
      }
    }
  }

  /** There is no end record iff its signature stands nowhere in the last 65557 bytes, eighteen before their end. */
  lemma NoEndRecordIff(file: Bytes)
    requires |file| >= 22
    ensures Locate(file) == NoDirectory(NoEndRecord) <==>
            forall j: nat :: |file| - 65557 <= j <= |file| - 22 ==> !EndSignature(file, j)
  {
    hide FindEnd, Le32, ReadAt, EndAt, EndSignature;
    var start := |file| - TailSize(file);
    var tail := file[start..];
    FindEndIff(tail, |tail| - 22);
    FindEndFrom(tail, |tail| - 22);
    assert Locate(file) == NoDirectory(NoEndRecord) <==> FindEnd(tail, |tail| - 22) == -1;
    forall j: nat | start <= j <= |file| - 22
      ensures EndAt(tail, j - start) <==> EndSignature(file, j)
    {
      EndInTail(file, start, j - start);
    }
    if forall j: nat :: |file| - 65557 <= j <= |file| - 22 ==> !EndSignature(file, j) {
      forall j | 0 <= j <= |tail| - 22
        ensures !EndAt(tail, j)
      {
        assert !EndSignature(file, start + j);
        assert EndAt(tail, (start + j) - start) <==> EndSignature(file, start + j);
      }
    }
  }

  lemma FindEndFrom(tail: Bytes, i: int)
    requires i + 4 <= |tail|
    ensures FindEnd(tail, i) >= -1
  {}

  /**
   With an end record at `e` that gives `size` and `offset`, a file below 4 GiB has a directory iff it
   holds those bytes. The test adds in 32 bits: a sum that wraps slips through to the short read.
   */
  lemma DirectoryIff(file: Bytes, e: nat, size: nat, offset: nat)
    requires 22 <= |file| < TWO_32 && size < TWO_32 && offset < TWO_32
    requires var tail := file[|file| - TailSize(file)..];
             && e + 22 <= |tail| && FindEnd(tail, |tail| - 22) == e
             && Le32(tail, e + 12) == size && Le32(tail, e + 16) == offset
    ensures offset + size <= |file| ==> Locate(file) == Found(file[offset..offset + size])
    ensures offset + size > |file| ==>
              Locate(file) == NoDirectory(if 0 <= offset + size - TWO_32 <= |file| then DirectoryShort
                                          else DirectoryPastEnd)
  {
    hide FindEnd, Le32;
  }

  /** Every outcome of reading a member, in terms of the bytes at its local header. */
  lemma ReadMemberIs(file: Bytes, entry: ZipEntry)
    ensures ReadMember(file, entry) ==
            var p := entry.localHeaderOffset;
            if p + 30 > |file| then Fails(LocalShort)
            else if file[p..p + 4] != [0x50, 0x4b, 0x03, 0x04] then Fails(BadLocalSignature)
            else
              var data := p + 30 + Two(file, p + 26) + Two(file, p + 28);
              if data + entry.csize > |file| then Fails(DataPastEnd)
              else Extracted(file[data..data + entry.csize], entry)
  {
    hide Le16, Le32, FromLE;
    var p := entry.localHeaderOffset;
    var header := ReadAt(file, p, 30);
    if p + 30 <= |file| {
      assert header == file[p..p + 30];
      LocalSignatureBytes(header);
      assert header[0..4] == file[p..p + 4];
      Le16Is(header, 26);
      Le16Is(header, 28);
    }
  }

  /** The numbers spelled by two and by four bytes. */
  function Two(b: Bytes, p: nat): nat
    requires p + 2 <= |b|
  {
    (b[p] as nat) + 256 * (b[p + 1] as nat)
  }

  function Four(b: Bytes, p: nat): nat
    requires p + 4 <= |b|
  {
    Two(b, p) + 0x1_0000 * Two(b, p + 2)
  }

  lemma Le16Is(b: Bytes, p: nat)
    requires p + 2 <= |b|
    ensures Le16(b, p) == Two(b, p)
  {
    hide Le16;
    Le16IsLE(b, p);
    assert b[p..p + 2] == [b[p], b[p + 1]] && [b[p], b[p + 1]][1..] == [b[p + 1]] && [b[p + 1]][1..] == [];
    assert FromLE([b[p + 1]]) == b[p + 1];
  }

  lemma Le32Is(b: Bytes, p: nat)
    requires p + 4 <= |b|
    ensures Le32(b, p) == Four(b, p)
  {
    hide Le32, FromLE;
    Le32IsLE(b, p);
    FromFour(b[p..p + 4]);
  }

  lemma LocalSignatureBytes(b: Bytes)
    requires |b| >= 4
    ensures Le32(b, 0) == LOCAL_SIGNATURE <==> b[0..4] == [0x50, 0x4b, 0x03, 0x04]
  {
    hide Le32;
    Le32Is(b, 0);
    assert b[0..4] == [b[0], b[1], b[2], b[3]];
  }

  lemma CentralSignatureBytes(b: Bytes, p: nat)
    requires p + 4 <= |b|
    ensures Le32(b, p) == CENTRAL_SIGNATURE <==> b[p..p + 4] == [0x50, 0x4b, 0x01, 0x02]
  {
    hide Le32;
    Le32Is(b, p);
    assert b[p..p + 4] == [b[p], b[p + 1], b[p + 2], b[p + 3]];
  }

  /** Where the fields of a directory entry are, byte by byte. */
  lemma EntryBytes(central: Bytes, p: nat)
    requires p + 46 <= |central| && p + 46 + Le16(central, p + 28) <= |central|
    ensures var e := EntryAt(central, p);
            && e.gpFlags == Two(central, p + 8) && e.compMethod == Two(central, p + 10)
            && e.crc32 == Four(central, p + 16) && e.csize == Four(central, p + 20) && e.usize == Four(central, p + 24)
            && e.localHeaderOffset == Four(central, p + 42)
            && |e.name| == Two(central, p + 28)
            && forall k :: p + 46 <= k < p + 46 + |e.name| ==> e.name[k - p - 46] == central[k]
  {
    hide Le16, Le32, Two, Four;
    Le16Is(central, p + 8);
    Le16Is(central, p + 10);
    Le16Is(central, p + 28);
    Le32Is(central, p + 16);
    Le32Is(central, p + 20);
    Le32Is(central, p + 24);
    Le32Is(central, p + 42);
  }

  // ----- When the walk leaves its buffer -----

  /** A whole header and name stand at `p`. */
  predicate RecordAt(central: Bytes, p: nat) {
    && p + 46 <= |central|
    && Le32(central, p) == CENTRAL_SIGNATURE
    && p + 46 + Le16(central, p + 28) <= |central|
  }

  function NextRecord(central: Bytes, p: nat): (next: nat)
    requires RecordAt(central, p)
    ensures next >= p + 46
  {
    p + 46 + Le16(central, p + 28) + Le16(central, p + 30) + Le16(central, p + 32)
  }

  /** The first position that no record stands at. */
  function RecordsEnd(central: Bytes, p: nat): nat
    decreases |central| - p
  {
    if RecordAt(central, p) then RecordsEnd(central, NextRecord(central, p)) else p
  }

  predicate Lists(central: Bytes, p: nat, name: Bytes)
    decreases |central| - p
  {
    RecordAt(central, p) &&
    (EntryAt(central, p).name == name || Lists(central, NextRecord(central, p), name))
  }

  /** A signature with less than a header after it. */
  predicate CutShort(central: Bytes, p: nat) {
    p + 4 <= |central| < p + 46 && Le32(central, p) == CENTRAL_SIGNATURE
  }

  /**
   The walk reads past the directory if and only if no record has the name and the records are
   followed by a signature with less than a header behind it.
   */
  lemma {:induction false} OverrunIff(central: Bytes, p: nat, name: Bytes)
    ensures FindEntry(central, p, name) == Overrun <==>
            !Lists(central, p, name) && CutShort(central, RecordsEnd(central, p))
    decreases |central| - p
  {
    hide Le16, Le32, EntryAt;
    if RecordAt(central, p) {
      OverrunIff(central, NextRecord(central, p), name);
    }
  }

  /** The extractor leaves a buffer on exactly the files whose directory is found and ends like that. */
  lemma OutOfBoundsIff(file: Bytes, name: Bytes)
    ensures Extract(file, name) == Fails(OutOfBounds) <==>
            var d := Locate(file);
            d.Found? && !Lists(d.central, 0, name) && CutShort(d.central, RecordsEnd(d.central, 0))
  {
    hide Le16, Le32, FindEnd, FindEntry, Lists, CutShort, RecordsEnd;
    if Locate(file).Found? {
      OverrunIff(Locate(file).central, 0, name);
    }
  }

  /** The imperative extractor, index by index. */
  method ExtractFile(file: Bytes, name: Bytes) returns (r: Extraction)
    ensures r == Extract(file, name)
  {
    hide Le16, Le32, FindEnd, FindEntry, ReadMember, ReadAt;
    if |file| < 22 {
      return Fails(TooSmall);
    }
    var searchSize := if |file| < MAX_TAIL then |file| else MAX_TAIL;
    var tail := file[|file| - searchSize..];
    var eocd := SearchEnd(tail);
    if eocd < 0 {
      return Fails(NoEndRecord);
    }
    var size, offset := Le32(tail, eocd + 12), Le32(tail, eocd + 16);
    if (offset + size) % TWO_32 > |file| % TWO_32 {
      return Fails(DirectoryPastEnd);
    }
    var central := ReadAt(file, offset, size);
    if |central| != size {
      return Fails(DirectoryShort);
    }
    var search := WalkDirectory(central, name);
    match search
    case Overrun => r := Fails(OutOfBounds);
    case Miss => r := Fails(NotFound);
    case Hit(entry) => r := FetchMember(file, entry);
  }

  /** The hop over the local header to the stored bytes. */
  method FetchMember(file: Bytes, entry: ZipEntry) returns (r: Extraction)
    ensures r == ReadMember(file, entry)
  {
    hide Le16, Le32;
    var localHeader := ReadAt(file, entry.localHeaderOffset, 30);
    if |localHeader| != 30 {
      return Fails(LocalShort);
    }
    var signature := Le32(localHeader, 0);
    if signature != LOCAL_SIGNATURE {
      return Fails(BadLocalSignature);
    }
    var nameLength := Le16(localHeader, 26);
    var extraLength := Le16(localHeader, 28);
    var dataOffset := entry.localHeaderOffset + 30 + nameLength + extraLength;
    if dataOffset + entry.csize > |file| {
      return Fails(DataPastEnd);
    }
    var compressed := ReadAt(file, dataOffset, entry.csize);
    if |compressed| != entry.csize {
      return Fails(DataShort);
    }
    r := Extracted(compressed, entry);
  }

  /** The backward scan for the end record. */
  method SearchEnd(tail: Bytes) returns (eocd: int)
    requires |tail| >= 22
    ensures eocd == FindEnd(tail, |tail| - 22)
  {
    eocd := -1;
    var i := |tail| - 22;
    while i >= 0
      invariant -1 <= i <= |tail| - 22
      invariant eocd == -1 && FindEnd(tail, |tail| - 22) == FindEnd(tail, i)
    {
      if tail[i] == 0x50 && tail[i + 1] == 0x4b && tail[i + 2] == 0x05 && tail[i + 3] == 0x06 {
        return i;
      }
      i := i - 1;
    }
  }

  /** The loop over the central directory. */
  method WalkDirectory(central: Bytes, name: Bytes) returns (r: Search)
    ensures r == FindEntry(central, 0, name)
  {
    hide Le16, Le32;
    var p := 0;
    while p + 4 <= |central|
      invariant FindEntry(central, 0, name) == FindEntry(central, p, name)
      decreases |central| - p
    {
      if Le32(central, p) != CENTRAL_SIGNATURE {
        break;
      }
      if p + 46 > |central| {
        return Overrun;
      }
      var nameLength, extraLength, commentLength := Le16(central, p + 28), Le16(central, p + 30), Le16(central, p + 32);
      if p + 46 + nameLength > |central| {
        break;
      }
      var entry := EntryAt(central, p);
      if entry.name == name {
        return Hit(entry);
      }
      p := p + 46 + nameLength + extraLength + commentLength;
    }
    r := Miss;
  }
}
