/** One example of each format, byte by byte, as the layouts and identifiers are laid down. */
module Vectors {
  import opened Common
  import opened Bits
  import opened Varint
  import opened Codec
  import opened Framing
  import opened Wire
  import opened Records
  import opened ZipArchive
  import CR = ChunkRequest
  import CL = ClosedLoop
  import D = Download
  import P = Properties
  import S = SchedulerSpec

  lemma LE2(v: nat)
    ensures EncLE(v, 2) == [v % 256, (v / 256) % 256]
  {
    assert EncLE(v, 2)[1..] == EncLE(v / 256, 1);
    assert EncLE(v / 256, 1)[1..] == EncLE(v / 256 / 256, 0) == [];
  }

  lemma LE4(v: nat)
    ensures EncLE(v, 4) == [v % 256, (v / 256) % 256, (v / 0x1_0000) % 256, (v / 0x100_0000) % 256]
  {
    LE2(v / 0x1_0000);
    var u := v / 256;
    assert u / 256 == v / 0x1_0000;
    assert EncLE(v, 4) == [v % 256] + ([u % 256] + EncLE(u / 256, 2));
  }

  lemma BE4(v: nat)
    ensures EncBE(v, 4) == [(v / 0x100_0000) % 256, (v / 0x1_0000) % 256, (v / 256) % 256, v % 256]
  {
    LE4(v);
  }

  lemma Short(v: nat)
    requires v < 128
    ensures EncVar(v) == [v]
  {}

  /** 300 is AC 02. */
  lemma VarintExample()
    ensures EncVar(300) == [0xAC, 0x02]
  {
    Short(2);
  }

  /** A UUID 00 01 .. 0F, a 64-bit size, strings and flags, in the order of the record. */
  lemma InfoExample()
    ensures EncInfo(InfoEntry([0, 1, 2, 3, 4, 5, 6, 7, 8, 9, 10, 11, 12, 13, 14, 15], [0x31], 0x0102,
                              [0x6B], [0x73], [0x63], true, false, true, [0x75])) ==
            ([7, 6, 5, 4, 3, 2, 1, 0, 15, 14, 13, 12, 11, 10, 9, 8] + [1, 0x31] + [2, 1, 0, 0, 0, 0, 0, 0])
            + ([1, 0x6B] + [1, 0x73] + [1, 0x63])
            + ([1] + [0] + [1] + [1, 0x75])
  {
    hide EncUUID, EncString, EncLE;
    IdExample([0, 1, 2, 3, 4, 5, 6, 7, 8, 9, 10, 11, 12, 13, 14, 15]);
    Letter(0x31);
    Letter(0x6B);
    Letter(0x73);
    Letter(0x63);
    Letter(0x75);
    LE8(0x0102);
  }

  lemma IdExample(id: Uuid)
    ensures EncUUID(id) == [id[7], id[6], id[5], id[4], id[3], id[2], id[1], id[0],
                            id[15], id[14], id[13], id[12], id[11], id[10], id[9], id[8]]
  {
    hide EncUUID;
    UUIDBytes(id, 0);
    UUIDBytes(id, 1);
    UUIDBytes(id, 2);
    UUIDBytes(id, 3);
    UUIDBytes(id, 4);
    UUIDBytes(id, 5);
    UUIDBytes(id, 6);
    UUIDBytes(id, 7);
  }

  lemma Letter(c: byte)
    ensures EncString([c]) == [1, c]
  {
    Short(1);
  }

  lemma LE8(v: nat)
    requires v < 0x1_0000
    ensures EncLE(v, 8) == [v % 256, v / 256, 0, 0, 0, 0, 0, 0]
  {
    LE4(v / 256 / 256 / 256 / 256);
    var a := v / 256;
    var b := a / 256;
    assert b == 0;
    assert EncLE(v, 8) == [v % 256] + ([a % 256] + EncLE(b, 6));
    assert EncLE(0, 6) == [0] + ([0] + EncLE(0, 4));
  }

  /** Protocol 924 big-endian, then the request and its two strings behind their lengths. */
  lemma LoginExample()
    ensures EncLogin(Login(924, [0x61], [0x62, 0x63])) ==
            [0, 0, 3, 0x9C] + ([11] + ([1, 0, 0, 0] + [0x61] + ([2, 0, 0, 0] + [0x62, 0x63])))
  {
    hide EncBE, EncLE, EncVar;
    BE4(924);
    LE4(1);
    LE4(2);
    Short(11);
  }

  lemma ExperimentsExample()
    ensures EncExperiments(ExperimentSet([Toggle([0x61], true)], [Toggle([0x62], false)], true)) ==
            [2, 0, 0, 0] + ([1, 0x61] + [1]) + ([1, 0x62] + [0]) + [1]
  {
    hide EncString, EncLE;
    Letter(0x61);
    Letter(0x62);
    LE4(2);
    OneToggle(Toggle([0x61], true));
    OneToggle(Toggle([0x62], false));
  }

  lemma OneToggle(t: Toggle)
    ensures EncToggles([t]) == EncString(t.name) + [if t.enabled then 1 else 0]
  {
    hide EncString;
    assert [t][1..] == [];
    assert EncToggles([t]) == EncToggle(t) + [];
  }

  /** NetworkSettings is packet 0x8F: threshold 1, algorithm 0, and six zero bytes. */
  lemma SettingsExample()
    ensures EncPacket(SettingsReply(924)) == [12] + [0x8F, 0x01] + ([1, 0] + [0, 0] + [0] + [0] + [0, 0, 0, 0])
  {
    hide EncLE, EncVar, Header;
    LE2(1);
    LE2(0);
    LE4(0);
    HeaderOfId(SettingsReply(924));
    TwoBytes(0x8F);
    Short(12);
  }

  lemma TwoBytes(v: nat)
    requires 128 <= v < 0x4000
    ensures EncVar(v) == [v % 128 + 128, v / 128]
  {
    Short(v / 128);
  }

  lemma HeaderOfId(p: Packet)
    requires p.Fits() && p.id < 1024 && p.subClient == 0
    ensures Header(p) == p.id
  {
    hide BitOr, Pow2;
    PowTen();
    OrDisjoint(p.id, 0, 10);
  }

  /** The refusal of version 800 is packet 2 with status 1: the client is too old. */
  lemma RefusalExample()
    ensures EncPacket(SettingsReply(800)) == [5] + [2] + [0, 0, 0, 1]
    ensures EncPacket(SettingsReply(1000)) == [5] + [2] + [0, 0, 0, 2]
  {
    hide EncBE, EncVar, Header;
    BE4(1);
    BE4(2);
    HeaderOfId(SettingsReply(800));
    HeaderOfId(SettingsReply(1000));
    Short(2);
    Short(5);
  }

  /** Sub-client 5 of packet 1 with an empty payload: the header is 1 + 5 * 1024. */
  lemma SubClientExample()
    ensures EncPacket(Packet(1, 5, Some([]))) == [2] + [0x81, 0x28] + []
  {
    hide BitOr, Pow2, EncVar;
    PowTen();
    OrDisjoint(1, 5, 10);
    TwoBytes(5121);
    Short(2);
  }

  /** Chunk packets are packet 0x53: the id as text, index and offset little-endian, and the bytes. */
  lemma ChunkExample(x: D.Texts, id: Uuid)
    requires x.uuid.Lawful()
    ensures D.EncChunk(x, S.ChunkData(id, [0x39], 0x0201, 0x0304, [0xAA, 0xBB])) ==
            [36] + x.uuid.format(id) + [1, 2, 0, 0] + [4, 3, 0, 0, 0, 0, 0, 0] + [2, 0xAA, 0xBB]
    ensures D.ToPacket(x, S.ChunkData(id, [0x39], 0x0201, 0x0304, [0xAA, 0xBB])).id == 0x53
  {
    hide EncLE, EncVar;
    Short(36);
    Short(2);
    LE4(0x0201);
    LE8(0x0304);
    assert [2] + [0xAA, 0xBB] == [2, 0xAA, 0xBB];
  }

  /** The other packets of the scheduler, and the request, by their numbers. */
  lemma PacketIds(x: D.Texts, m: S.Message, q: (Uuid, int))
    ensures m.DataInfo? ==> D.ToPacket(x, m).id == 0x52
    ensures m.PackStack? ==> D.ToPacket(x, m).id == 0x07
    ensures CL.RequestPacket(x.uuid, q).id == 0x54
  {}

  /** A chunk request: the id as text and the index in two bytes, negative ones as complements. */
  lemma RequestExample(x: CR.UuidText, id: Uuid)
    requires x.Lawful()
    ensures CR.EncChunkRequest(x, id, 0x0201) == [36] + x.format(id) + [1, 2]
    ensures CR.EncChunkRequest(x, id, -2) == [36] + x.format(id) + [0xFE, 0xFF]
  {
    Short(36);
    LE2(0x0201);
    LE2(0xFFFE);
    hide EncLE, EncVar;
    assert (-2) % 0x1_0000 == 0xFFFE;
  }

  /** The largest inputs that can be decompressed: 8 MiB for zlib, below 4 GiB for snappy. */
  lemma Caps(size: nat)
    ensures Recoverable(true, 0, size) <==> size <= 8_388_608
    ensures Recoverable(true, 1, size) <==> size < 0x1_0000_0000
  {}

  // ----- Archives -----

  const MEMBER := Member(
    [0x6E], 0x0102, 0x0304, 0x05060708, 0x090A0B0C, [0xD1, 0xD2, 0xD3], 0x0D0E,
    [1, 1, 1, 1], [2, 2, 2, 2], [3, 3, 3, 3, 3, 3, 3, 3], [0x78, 0x78], [0x63],
    [4, 4, 4, 4, 4, 4, 4, 4, 4, 4, 4, 4, 4, 4, 4, 4, 4, 4, 4, 4, 4, 4], [0x6C], [0x79, 0x79, 0x79])

  lemma LocalExample()
    ensures Local(MEMBER) ==
            [0x50, 0x4B, 0x03, 0x04]
            + [4, 4, 4, 4, 4, 4, 4, 4, 4, 4, 4, 4, 4, 4, 4, 4, 4, 4, 4, 4, 4, 4]
            + ([1, 0] + [3, 0]) + ([0x6C] + [0x79, 0x79, 0x79]) + [0xD1, 0xD2, 0xD3]
  {
    hide EncLE;
    LE4(0x04034b50);
    LE2(1);
    LE2(3);
  }

  lemma CentralExample()
    ensures Central(MEMBER) ==
            ([0x50, 0x4B, 0x01, 0x02] + [1, 1, 1, 1] + [4, 3] + [2, 1] + [2, 2, 2, 2])
            + ([8, 7, 6, 5] + [3, 0, 0, 0] + [0x0C, 0x0B, 0x0A, 9])
            + ([1, 0] + [2, 0] + [1, 0])
            + ([3, 3, 3, 3, 3, 3, 3, 3] + [0x0E, 0x0D, 0, 0]) + [0x6E] + ([0x78, 0x78] + [0x63])
  {
    hide EncLE, CentralKind, CentralSizes, CentralLengths;
    KindExample();
    SizesExample();
    LengthsExample();
    LE4(0x0D0E);
  }

  lemma KindExample()
    ensures CentralKind(MEMBER) == [0x50, 0x4B, 0x01, 0x02] + [1, 1, 1, 1] + [4, 3] + [2, 1] + [2, 2, 2, 2]
  {
    hide EncLE;
    LE4(0x02014b50);
    LE2(0x0304);
    LE2(0x0102);
  }

  lemma SizesExample()
    ensures CentralSizes(MEMBER) == [8, 7, 6, 5] + [3, 0, 0, 0] + [0x0C, 0x0B, 0x0A, 9]
  {
    hide EncLE;
    LE4(0x05060708);
    LE4(3);
    LE4(0x090A0B0C);
  }

  lemma LengthsExample()
    ensures CentralLengths(MEMBER) == [1, 0] + [2, 0] + [1, 0]
  {
    hide EncLE;
    LE2(1);
    LE2(2);
  }

  lemma EndExample()
    ensures End([0, 0, 0, 0, 1, 0, 1, 0], 0x0102, 0x0304, [0x63]) ==
            [0x50, 0x4B, 0x05, 0x06] + [0, 0, 0, 0, 1, 0, 1, 0] + [2, 1, 0, 0] + [4, 3, 0, 0] + [1, 0] + [0x63]
  {
    hide EncLE;
    LE4(0x06054b50);
    LE4(0x0102);
    LE4(0x0304);
    LE2(1);
  }

  // ----- Properties -----

  lemma PropertiesExample()
    ensures P.ConfigLines(P.DEFAULTS) ==
            ["server-port=19132", "server-portv6=19133", "max-players=100", "server-name=CyrexMC",
             "motd=Cyrex MCBE Software", "gamemode=Survival", "force-resources=0"]
  {
    hide P.Decimal;
    DecimalExamples();
    assert P.Line("server-port", "19132") == "server-port=19132";
    assert P.Line("server-portv6", "19133") == "server-portv6=19133";
    assert P.Line("max-players", "100") == "max-players=100";
    assert P.Line("server-name", "CyrexMC") == "server-name=CyrexMC";
    assert P.Line("motd", "Cyrex MCBE Software") == "motd=Cyrex MCBE Software";
    assert P.Line("gamemode", "Survival") == "gamemode=Survival";
    assert P.Line("force-resources", "0") == "force-resources=0";
  }

  lemma DecimalExamples()
    ensures P.Decimal(19132) == "19132" && P.Decimal(19133) == "19133" && P.Decimal(100) == "100"
  {
    assert P.Decimal(19) == "19";
    assert P.Decimal(191) == "191";
    assert P.Decimal(1913) == "1913";
    assert P.Decimal(10) == "10";
  }
}
