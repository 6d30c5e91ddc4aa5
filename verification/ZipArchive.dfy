/**
 Archives as PKWARE APPNOTE.TXT lays them out (sections 4.3.7, 4.3.12 and 4.3.16), and the proof
 that the extractor inverts any of them.
 */
module ZipArchive {
  import opened Common
  import opened Bits
  import opened Codec
  import opened Zip

  /** A stored member. The two headers have their own extra fields; bytes nobody reads are free. */
  datatype Member = Member(
    name: Bytes, compMethod: nat, flags: nat, crc: nat, usize: nat, data: Bytes, offset: nat,
    versions: Bytes, stamp: Bytes, attributes: Bytes, extra: Bytes, comment: Bytes,
    localFields: Bytes, localName: Bytes, localExtra: Bytes)
  {
    /** Field widths. */
    predicate Fits() {
      && |name| < 0x1_0000 && |extra| < 0x1_0000 && |comment| < 0x1_0000
      && |localName| < 0x1_0000 && |localExtra| < 0x1_0000
      && compMethod < 0x1_0000 && flags < 0x1_0000
      && crc < TWO_32 && usize < TWO_32 && |data| < TWO_32 && offset < TWO_32
      && |versions| == 4 && |stamp| == 4 && |attributes| == 8 && |localFields| == 22
    }

    function Entry(): ZipEntry {
      ZipEntry(crc, |data|, usize, offset, compMethod, flags, name)
    }
  }

  function CentralKind(m: Member): Bytes {
    EncLE(CENTRAL_SIGNATURE, 4) + m.versions + EncLE(m.flags, 2) + EncLE(m.compMethod, 2) + m.stamp
  }

  function CentralSizes(m: Member): Bytes {
    EncLE(m.crc, 4) + EncLE(|m.data|, 4) + EncLE(m.usize, 4)
  }

  function CentralLengths(m: Member): Bytes {
    EncLE(|m.name|, 2) + EncLE(|m.extra|, 2) + EncLE(|m.comment|, 2)
  }

  /** The central header of a member. */
  function Central(m: Member): Bytes {
    CentralKind(m) + CentralSizes(m) + CentralLengths(m) + (m.attributes + EncLE(m.offset, 4))
    + m.name + (m.extra + m.comment)
  }

  function Directory(ms: seq<Member>): Bytes {
    if ms == [] then [] else Central(ms[0]) + Directory(ms[1..])
  }

  /** The local header of a member and its stored bytes. */
  function Local(m: Member): Bytes {
    EncLE(LOCAL_SIGNATURE, 4) + m.localFields + (EncLE(|m.localName|, 2) + EncLE(|m.localExtra|, 2))
    + (m.localName + m.localExtra) + m.data
  }

  /** The end record: where the directory is, and a comment. */
  function End(disks: Bytes, size: nat, offset: nat, comment: Bytes): Bytes {
    EncLE(END_SIGNATURE, 4) + disks + EncLE(size, 4) + EncLE(offset, 4) + EncLE(|comment|, 2) + comment
  }

  datatype Archive = Archive(body: Bytes, members: seq<Member>, gap: Bytes, disks: Bytes, comment: Bytes) {
    function DirectoryBytes(): Bytes { Directory(members) }

    function EndBytes(): Bytes {
      End(disks, |DirectoryBytes()|, |body|, comment)
    }

    function EndPos(): nat { |body| + |DirectoryBytes()| + |gap| }

    function File(): Bytes { body + DirectoryBytes() + gap + EndBytes() }

    /**
     The members' local headers stand in the body where the directory says, in any order and with
     anything between them; no end signature is found after the end record.
     */
    ghost predicate WellFormed() {
      && |disks| == 8 && |comment| < 0x1_0000 && |File()| < TWO_32
      && (forall m :: m in members ==> m.Fits() && At(body, m.offset, Local(m)))
      && forall j :: EndPos() < j <= |File()| - 22 ==> !EndAt(File(), j)
    }
  }

  /** The first member of that name, in directory order. */
  function First(ms: seq<Member>, name: Bytes): Option<Member> {
    if ms == [] then None else if ms[0].name == name then Some(ms[0]) else First(ms[1..], name)
  }

  // ----- Reading numbers back -----

  lemma NumberRoundTrip(data: Bytes, p: nat, v: nat)
    ensures v < 0x1_0000 && At(data, p, EncLE(v, 2)) ==> Le16(data, p) == v
    ensures v < TWO_32 && At(data, p, EncLE(v, 4)) ==> Le32(data, p) == v
  {
    hide Le16, Le32, EncLE, FromLE, Pow2;
    WidthBounds();
    if v < 0x1_0000 && At(data, p, EncLE(v, 2)) {
      Le16IsLE(data, p);
      FromEncLE(v, 2);
    }
    if v < TWO_32 && At(data, p, EncLE(v, 4)) {
      Le32IsLE(data, p);
      FromEncLE(v, 4);
    }
  }

  lemma CentralSize(m: Member)
    requires m.Fits()
    ensures |CentralKind(m)| == 16 && |CentralSizes(m)| == 12 && |CentralLengths(m)| == 6
    ensures |Central(m)| == 46 + |m.name| + |m.extra| + |m.comment|
  {}

  lemma KindRoundTrip(m: Member, c: Bytes, p: nat)
    requires m.Fits() && At(c, p, CentralKind(m))
    ensures p + 16 <= |c| && Le32(c, p) == CENTRAL_SIGNATURE
    ensures Le16(c, p + 8) == m.flags && Le16(c, p + 10) == m.compMethod
  {
    hide EncLE, Le16, Le32;
    var s, f, k := EncLE(CENTRAL_SIGNATURE, 4), EncLE(m.flags, 2), EncLE(m.compMethod, 2);
    AtSplit(c, p, s + m.versions + f + k, m.stamp);
    AtSplit(c, p, s + m.versions + f, k);
    AtSplit(c, p, s + m.versions, f);
    AtSplit(c, p, s, m.versions);
    NumberRoundTrip(c, p, CENTRAL_SIGNATURE);
    NumberRoundTrip(c, p + 8, m.flags);
    NumberRoundTrip(c, p + 10, m.compMethod);
  }

  lemma SizesRoundTrip(m: Member, c: Bytes, p: nat)
    requires m.Fits() && At(c, p, CentralSizes(m))
    ensures p + 12 <= |c|
    ensures Le32(c, p) == m.crc && Le32(c, p + 4) == |m.data| && Le32(c, p + 8) == m.usize
  {
    hide EncLE, Le32;
    var a, b, u := EncLE(m.crc, 4), EncLE(|m.data|, 4), EncLE(m.usize, 4);
    AtSplit(c, p, a + b, u);
    AtSplit(c, p, a, b);
    NumberRoundTrip(c, p, m.crc);
    NumberRoundTrip(c, p + 4, |m.data|);
    NumberRoundTrip(c, p + 8, m.usize);
  }

  lemma LengthsRoundTrip(m: Member, c: Bytes, p: nat)
    requires m.Fits() && At(c, p, CentralLengths(m))
    ensures p + 6 <= |c|
    ensures Le16(c, p) == |m.name| && Le16(c, p + 2) == |m.extra| && Le16(c, p + 4) == |m.comment|
  {
    hide EncLE, Le16;
    var a, b, u := EncLE(|m.name|, 2), EncLE(|m.extra|, 2), EncLE(|m.comment|, 2);
    AtSplit(c, p, a + b, u);
    AtSplit(c, p, a, b);
    NumberRoundTrip(c, p, |m.name|);
    NumberRoundTrip(c, p + 2, |m.extra|);
    NumberRoundTrip(c, p + 4, |m.comment|);
  }

  /** A central header is read back field by field. */
  lemma CentralRoundTrip(m: Member, c: Bytes, p: nat)
    requires m.Fits() && At(c, p, Central(m))
    ensures p + 46 + |m.name| <= |c| && Le32(c, p) == CENTRAL_SIGNATURE
    ensures Le16(c, p + 28) == |m.name| && Le16(c, p + 30) == |m.extra| && Le16(c, p + 32) == |m.comment|
    ensures EntryAt(c, p) == m.Entry()
  {
    hide EncLE, Le16, Le32, CentralKind, CentralSizes, CentralLengths;
    CentralSize(m);
    var k, s, l, o := CentralKind(m), CentralSizes(m), CentralLengths(m), m.attributes + EncLE(m.offset, 4);
    AtSplit(c, p, k + s + l + o + m.name, m.extra + m.comment);
    AtSplit(c, p, k + s + l + o, m.name);
    AtSplit(c, p, k + s + l, o);
    AtSplit(c, p, k + s, l);
    AtSplit(c, p, k, s);
    AtSplit(c, p + 34, m.attributes, EncLE(m.offset, 4));
    KindRoundTrip(m, c, p);
    SizesRoundTrip(m, c, p + 16);
    LengthsRoundTrip(m, c, p + 28);
    NumberRoundTrip(c, p + 42, m.offset);
  }

  /** The walk finds the first member of the name, and misses iff there is none. */
  lemma {:induction false} DirectoryRoundTrip(ms: seq<Member>, c: Bytes, p: nat, name: Bytes)
    requires forall m :: m in ms ==> m.Fits()
    requires At(c, p, Directory(ms)) && p + |Directory(ms)| == |c|
    ensures FindEntry(c, p, name) == match First(ms, name) case None => Miss case Some(m) => Hit(m.Entry())
    decreases |ms|
  {
    hide Central, Le16, Le32, EntryAt;
    if ms != [] {
      var m, rest := ms[0], ms[1..];
      assert m in ms;
      AtSplit(c, p, Central(m), Directory(rest));
      CentralSize(m);
      CentralRoundTrip(m, c, p);
      DirectoryRoundTrip(rest, c, p + |Central(m)|, name);
    }
  }

  /** From the local header the extractor reaches exactly the stored bytes. */
  lemma LocalRoundTrip(m: Member, file: Bytes)
    requires m.Fits() && At(file, m.offset, Local(m))
    ensures ReadMember(file, m.Entry()) == Extracted(m.data, m.Entry())
  {
    hide EncLE, Le16, Le32;
    var s, n := EncLE(LOCAL_SIGNATURE, 4), EncLE(|m.localName|, 2) + EncLE(|m.localExtra|, 2);
    var p := m.offset;
    AtSplit(file, p, s + m.localFields + n + (m.localName + m.localExtra), m.data);
    AtSplit(file, p, s + m.localFields + n, m.localName + m.localExtra);
    var header := ReadAt(file, p, 30);
    assert header == file[p..p + 30];
    HeaderRoundTrip(m, header);
    var dataOffset := p + 30 + |m.localName| + |m.localExtra|;
    assert At(file, dataOffset, m.data);
  }

  lemma HeaderRoundTrip(m: Member, header: Bytes)
    requires m.Fits()
    requires header == EncLE(LOCAL_SIGNATURE, 4) + m.localFields + (EncLE(|m.localName|, 2) + EncLE(|m.localExtra|, 2))
    ensures |header| == 30 && Le32(header, 0) == LOCAL_SIGNATURE
    ensures Le16(header, 26) == |m.localName| && Le16(header, 28) == |m.localExtra|
  {
    hide EncLE, Le16, Le32;
    var s, a, b := EncLE(LOCAL_SIGNATURE, 4), EncLE(|m.localName|, 2), EncLE(|m.localExtra|, 2);
    assert At(header, 0, header);
    AtSplit(header, 0, s + m.localFields, a + b);
    AtSplit(header, 0, s, m.localFields);
    AtSplit(header, 26, a, b);
    NumberRoundTrip(header, 0, LOCAL_SIGNATURE);
    NumberRoundTrip(header, 26, |m.localName|);
    NumberRoundTrip(header, 28, |m.localExtra|);
  }

  lemma {:induction false} FindEndLast(tail: Bytes, i: int, e: nat)
    requires e <= i && i + 4 <= |tail| && EndAt(tail, e)
    requires forall j :: e < j <= i ==> !EndAt(tail, j)
    ensures FindEnd(tail, i) == e
    decreases i - e
  {
    if i > e {
      FindEndLast(tail, i - 1, e);
    }
  }

  lemma EndRoundTrip(disks: Bytes, size: nat, offset: nat, comment: Bytes, data: Bytes, p: nat)
    requires |disks| == 8 && size < TWO_32 && offset < TWO_32
    requires At(data, p, End(disks, size, offset, comment))
    ensures p + 22 <= |data| && EndAt(data, p)
    ensures Le32(data, p + 12) == size && Le32(data, p + 16) == offset
  {
    hide EncLE, Le32;
    var s := EncLE(END_SIGNATURE, 4);
    AtSplit(data, p, s + disks + EncLE(size, 4) + EncLE(offset, 4) + EncLE(|comment|, 2), comment);
    AtSplit(data, p, s + disks + EncLE(size, 4) + EncLE(offset, 4), EncLE(|comment|, 2));
    AtSplit(data, p, s + disks + EncLE(size, 4), EncLE(offset, 4));
    AtSplit(data, p, s + disks, EncLE(size, 4));
    AtSplit(data, p, s, disks);
    NumberRoundTrip(data, p + 12, size);
    NumberRoundTrip(data, p + 16, offset);
    SignatureBytes(data, p);
  }

  lemma SignatureBytes(data: Bytes, p: nat)
    requires At(data, p, EncLE(END_SIGNATURE, 4))
    ensures EndAt(data, p)
  {
    AtIndex(data, p, EncLE(END_SIGNATURE, 4));
    var e := EncLE(END_SIGNATURE, 4);
    assert e[0] == 0x50 && e[1..] == EncLE(END_SIGNATURE / 256, 3);
    assert e[1] == e[1..][0] == 0x4b && e[1..][1..] == EncLE(END_SIGNATURE / 0x1_0000, 2);
    assert e[2] == e[1..][1..][0] == 0x05;
    assert e[3] == e[1..][1..][1] == 0x06;
  }

  // ----- Inversion -----

  lemma EndIsFound(a: Archive)
    requires a.WellFormed()
    ensures var file := a.File();
            var start := |file| - TailSize(file);
            var tail := file[start..];
            && |file| >= 22
            && start <= a.EndPos()
            && FindEnd(tail, |tail| - 22) == a.EndPos() - start
            && a.EndPos() - start + 22 <= |tail|
            && Le32(tail, a.EndPos() - start + 12) == |a.DirectoryBytes()|
            && Le32(tail, a.EndPos() - start + 16) == |a.body|
  {
    hide Directory, Le32, FindEnd, End, EndAt;
    var file := a.File();
    var start := |file| - TailSize(file);
    EndSize(a.disks, |a.DirectoryBytes()|, |a.body|, a.comment);
    var tail := file[start..];
    var e := a.EndPos() - start;
    SuffixAt(a.body + a.DirectoryBytes() + a.gap, a.EndBytes(), start);
    EndRoundTrip(a.disks, |a.DirectoryBytes()|, |a.body|, a.comment, tail, e);
    NoLaterEnd(file, start, a.EndPos());
    FindEndLast(tail, |tail| - 22, e);
  }

  lemma EndSize(disks: Bytes, size: nat, offset: nat, comment: Bytes)
    ensures |disks| == 8 ==> |End(disks, size, offset, comment)| == 22 + |comment|
  {}

  lemma SuffixAt(before: Bytes, end: Bytes, start: nat)
    requires start <= |before|
    ensures At((before + end)[start..], |before| - start, end)
  {
    var tail := (before + end)[start..];
    assert tail[|before| - start..|before| - start + |end|] == end;
  }

  lemma NoLaterEnd(file: Bytes, start: nat, end: nat)
    requires start <= end <= |file| && |file| >= 22
    requires forall j :: end < j <= |file| - 22 ==> !EndAt(file, j)
    ensures var tail := file[start..];
            forall j :: end - start < j <= |tail| - 22 ==> !EndAt(tail, j)
  {
    var tail := file[start..];
    forall j | end - start < j <= |tail| - 22
      ensures !EndAt(tail, j)
    {
      assert !EndAt(file, start + j);
    }
  }

  lemma DirectoryIsRead(a: Archive)
    requires a.WellFormed()
    ensures ReadAt(a.File(), |a.body|, |a.DirectoryBytes()|) == a.DirectoryBytes()
    ensures |a.body| + |a.DirectoryBytes()| <= |a.File()| < TWO_32
  {
    hide Directory, End;
    var d := a.DirectoryBytes();
    assert a.File()[|a.body|..|a.body| + |d|] == d;
  }

  /**
   On every well-formed archive the extractor returns the stored bytes and metadata of the first
   directory entry of that name, fails iff there is none, and never reads out of bounds.
   */
  lemma ExtractInverts(a: Archive, name: Bytes)
    requires a.WellFormed()
    ensures Extract(a.File(), name) ==
            match First(a.members, name)
            case None => Fails(NotFound)
            case Some(m) => Extracted(m.data, m.Entry())
  {
    hide Directory, FindEnd, Le32, FindEntry, End, ReadMember, ReadAt, First, Locate, TailSize;
    EndIsFound(a);
    DirectoryIsRead(a);
    var c := a.DirectoryBytes();
    LocateBy(a.File(), a.EndPos() - (|a.File()| - TailSize(a.File())), |a.body|, c);
    assert At(c, 0, c);
    DirectoryRoundTrip(a.members, c, 0, name);
    FirstIsMember(a.members, name);
    var found := First(a.members, name);
    if found.Some? {
      InBody(a, found.value);
      LocalRoundTrip(found.value, a.File());
    }
  }

  /** An end record found at `e` leads to the directory `c`. */
  lemma LocateBy(file: Bytes, e: nat, offset: nat, c: Bytes)
    requires 22 <= |file| < TWO_32 && e + 22 <= TailSize(file) && offset + |c| <= |file|
    requires var tail := file[|file| - TailSize(file)..];
             FindEnd(tail, |tail| - 22) == e && Le32(tail, e + 12) == |c| && Le32(tail, e + 16) == offset
    requires ReadAt(file, offset, |c|) == c
    ensures Locate(file) == Found(c)
  {
    hide FindEnd, Le32, ReadAt, TailSize;
  }

  lemma InBody(a: Archive, m: Member)
    requires a.WellFormed() && m in a.members
    ensures m.Fits() && At(a.File(), m.offset, Local(m))
  {
    hide Local, Directory, End;
    assert a.File()[m.offset..m.offset + |Local(m)|] == a.body[m.offset..m.offset + |Local(m)|];
  }

  lemma {:induction false} FirstIsMember(ms: seq<Member>, name: Bytes)
    ensures First(ms, name).Some? ==> First(ms, name).value in ms && First(ms, name).value.name == name
    ensures First(ms, name).None? ==> forall m :: m in ms ==> m.name != name
  {
    if ms != [] {
      FirstIsMember(ms[1..], name);
      assert ms == [ms[0]] + ms[1..];
    }
  }

  // ----- Directories that end in a piece of a header -----

  /** The walk hops over a record of another name. */
  lemma HopsOver(m: Member, c: Bytes, p: nat, name: Bytes)
    requires m.Fits() && m.name != name && At(c, p, Central(m))
    ensures FindEntry(c, p, name) == FindEntry(c, p + |Central(m)|, name)
  {
    hide Central, Le16, Le32, EntryAt;
    CentralSize(m);
    CentralRoundTrip(m, c, p);
  }

  /**
   Records of other names, then fewer bytes than a header: the walk leaves the directory if and only
   if those bytes begin with a signature.
   */
  lemma {:induction false} PieceOverruns(ms: seq<Member>, piece: Bytes, c: Bytes, p: nat, name: Bytes)
    requires (forall m :: m in ms ==> m.Fits() && m.name != name) && |piece| < 46
    requires At(c, p, Directory(ms) + piece) && p + |Directory(ms)| + |piece| == |c|
    ensures FindEntry(c, p, name) == Overrun <==> |piece| >= 4 && Le32(piece, 0) == CENTRAL_SIGNATURE
    decreases |ms|
  {
    hide Central, FindEntry, Le32, At;
    AtSplit(c, p, Directory(ms), piece);
    if ms == [] {
      PieceAlone(piece, c, p, name);
    } else {
      var m, rest := ms[0], ms[1..];
      assert m in ms;
      AtSplit(c, p, Central(m), Directory(rest));
      HopsOver(m, c, p, name);
      AtSplit(c, p + |Central(m)|, Directory(rest), piece);
      PieceOverruns(rest, piece, c, p + |Central(m)|, name);
    }
  }

  lemma PieceAlone(piece: Bytes, c: Bytes, p: nat, name: Bytes)
    requires |piece| < 46 && At(c, p, piece) && p + |piece| == |c|
    ensures FindEntry(c, p, name) == Overrun <==> |piece| >= 4 && Le32(piece, 0) == CENTRAL_SIGNATURE
  {
    hide Le16, Le32, EntryAt;
    if |piece| >= 4 {
      SameNumber(c, p, piece);
    }
  }

  lemma SameNumber(c: Bytes, p: nat, piece: Bytes)
    requires At(c, p, piece) && |piece| >= 4
    ensures p + 4 <= |c| && Le32(c, p) == Le32(piece, 0)
  {
    hide Le32, FromLE;
    Le32IsLE(c, p);
    Le32IsLE(piece, 0);
    assert c[p..p + 4] == c[p..p + |piece|][..4] == piece[0..4];
  }

  /** A directory of four bytes, a signature alone, in a file of 26. */
  function BareSignature(): Bytes {
    EncLE(CENTRAL_SIGNATURE, 4) + End([0, 0, 0, 0, 0, 0, 0, 0], 4, 0, [])
  }

  /** On that file the extractor leaves the directory, whatever name it looks for. */
  lemma BareSignatureOverruns(name: Bytes)
    ensures Extract(BareSignature(), name) == Fails(OutOfBounds)
  {
    hide EncLE, Le32, FindEnd, End, EndAt, FindEntry;
    var file, s := BareSignature(), EncLE(CENTRAL_SIGNATURE, 4);
    var disks: Bytes := [0, 0, 0, 0, 0, 0, 0, 0];
    EndSize(disks, 4, 0, []);
    assert file[0..] == file;
    SuffixAt(s, End(disks, 4, 0, []), 0);
    EndRoundTrip(disks, 4, 0, [], file, 4);
    FindEndLast(file, 4, 4);
    assert ReadAt(file, 0, 4) == s;
    LocateBy(file, 4, 0, s);
    assert At(s, 0, s);
    NumberRoundTrip(s, 0, CENTRAL_SIGNATURE);
    assert At(s, 0, Directory([]) + s);
    PieceOverruns([], s, s, 0, name);
  }

  // ----- A writer -----

  /** The members laid out one after the other from `pos`. */
  function Place(ms: seq<Member>, pos: nat): seq<Member> {
    if ms == [] then [] else [ms[0].(offset := pos)] + Place(ms[1..], pos + |Local(ms[0])|)
  }

  function Locals(ms: seq<Member>): Bytes {
    if ms == [] then [] else Local(ms[0]) + Locals(ms[1..])
  }

  function Write(ms: seq<Member>, comment: Bytes): Archive {
    Archive(Locals(ms), Place(ms, 0), [], [0, 0, 0, 0, 0, 0, 0, 0], comment)
  }

  lemma {:induction false} PlacedInBody(ms: seq<Member>, body: Bytes, pos: nat)
    requires At(body, pos, Locals(ms)) && |body| < TWO_32
    requires forall m :: m in ms ==> m.(offset := 0).Fits()
    ensures forall m :: m in Place(ms, pos) ==> m.Fits() && At(body, m.offset, Local(m))
    decreases |ms|
  {
    hide Local;
    if ms != [] {
      var m, rest := ms[0], ms[1..];
      var placed := m.(offset := pos);
      assert m in ms;
      AtSplit(body, pos, Local(m), Locals(rest));
      LocalIgnoresOffset(m, pos);
      PlacedInBody(rest, body, pos + |Local(m)|);
      assert placed.Fits() by { assert m.(offset := 0).Fits(); }
      assert Place(ms, pos) == [placed] + Place(rest, pos + |Local(m)|);
    }
  }

  lemma LocalIgnoresOffset(m: Member, pos: nat)
    ensures Local(m.(offset := pos)) == Local(m)
  {
    hide EncLE;
  }

  /** Written archives are well formed, provided no end signature hides in the comment. */
  lemma WriteWellFormed(ms: seq<Member>, comment: Bytes)
    requires forall m :: m in ms ==> m.(offset := 0).Fits()
    requires |comment| < 0x1_0000 && |Write(ms, comment).File()| < TWO_32
    requires var a := Write(ms, comment);
             forall j :: a.EndPos() < j <= |a.File()| - 22 ==> !EndAt(a.File(), j)
    ensures Write(ms, comment).WellFormed()
  {
    hide Directory, Locals, Place, End;
    var body := Write(ms, comment).body;
    assert At(body, 0, body);
    PlacedInBody(ms, body, 0);
  }

  lemma {:induction false} FirstOfPlaced(ms: seq<Member>, pos: nat, name: Bytes)
    ensures match First(ms, name)
            case None => First(Place(ms, pos), name).None?
            case Some(m) => First(Place(ms, pos), name).Some?
                            && First(Place(ms, pos), name).value.(offset := 0) == m.(offset := 0)
    decreases |ms|
  {
    if ms != [] {
      FirstOfPlaced(ms[1..], pos + |Local(ms[0])|, name);
      assert Place(ms, pos)[1..] == Place(ms[1..], pos + |Local(ms[0])|);
    }
  }

  /** Round trip: what was written under a name is what is extracted under it. */
  lemma WriteThenExtract(ms: seq<Member>, comment: Bytes, name: Bytes)
    requires forall m :: m in ms ==> m.(offset := 0).Fits()
    requires |comment| < 0x1_0000 && |Write(ms, comment).File()| < TWO_32
    requires var a := Write(ms, comment);
             forall j :: a.EndPos() < j <= |a.File()| - 22 ==> !EndAt(a.File(), j)
    ensures var r := Extract(Write(ms, comment).File(), name);
            match First(ms, name)
            case None => r == Fails(NotFound)
            case Some(m) => r.Extracted? && r.data == m.data
                            && r.entry.(localHeaderOffset := 0) == m.Entry().(localHeaderOffset := 0)
  {
    hide Extract, First, Place, Locals, Directory, End;
    WriteWellFormed(ms, comment);
    ExtractInverts(Write(ms, comment), name);
    FirstOfPlaced(ms, 0, name);
  }
}
