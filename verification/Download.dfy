/**
 The whole path of a download: scheduler, packet codec, frames, envelope, cipher and back. A client
 that decodes chunk packets and ignores the others rebuilds every pack it has asked for in full.
 */
module Download {
  import opened Common
  import opened Codec
  import opened Framing
  import opened Wire
  import ChunkRequest
  import S = SchedulerSpec
  import R = SchedulerRuns

  const CHUNK_DATA_ID: nat := 0x53
  const DATA_INFO_ID: nat := 0x52
  const PACK_STACK_ID: nat := 0x07

  /** Textual UUIDs, and the payloads of the packets whose codec is not modelled here. */
  datatype Texts = Texts(uuid: ChunkRequest.UuidText, other: S.Message -> Bytes)

  predicate ChunkFits(m: S.Message) {
    m.ChunkData? && m.chunkIndex < TWO_32 && m.progress < TWO_64 && |m.data| < TWO_32
  }

  /** `ResourcePackChunkDataPacket::encodePayload`: the version does not travel. */
  function EncChunk(x: Texts, m: S.Message): Bytes
    requires m.ChunkData?
  {
    EncString(x.uuid.format(m.packId)) + EncLE(m.chunkIndex % TWO_32, 4) + EncLE(m.progress % TWO_64, 8)
    + EncString(m.data)
  }

  /** The client's side of it. */
  function GetChunk(x: Texts, data: Bytes, pos: nat): Read<S.Message> {
    var (text, p1) :- GetString(data, pos);
    var (index, p2) :- GetLE(data, p1, 4);
    var (progress, p3) :- GetLE(data, p2, 8);
    var (bytes, p4) :- GetString(data, p3);
    match x.uuid.parse(text)
    case None => Throw
    case Some(id) => Got(S.ChunkData(id, [], index, progress, bytes), p4)
  }

  function WithoutVersion(m: S.Message): S.Message
    requires m.ChunkData?
  {
    m.(packVersion := [])
  }

  lemma ChunkRoundTrip(x: Texts, m: S.Message, data: Bytes, pos: nat)
    requires x.uuid.Lawful() && ChunkFits(m) && At(data, pos, EncChunk(x, m))
    ensures GetChunk(x, data, pos) == Got(WithoutVersion(m), pos + |EncChunk(x, m)|)
  {
    hide EncString, GetString, EncLE, GetLE, Bits.Pow2;
    var t, i := EncString(x.uuid.format(m.packId)), EncLE(m.chunkIndex, 4);
    var g, d := EncLE(m.progress, 8), EncString(m.data);
    AtSplit(data, pos, t + i + g, d);
    AtSplit(data, pos, t + i, g);
    AtSplit(data, pos, t, i);
    WidthBounds();
    StringRoundTrip(x.uuid.format(m.packId), data, pos);
    LERoundTrip(m.chunkIndex, 4, data, pos + |t|);
    LERoundTrip(m.progress, 8, data, pos + |t| + 4);
    StringRoundTrip(m.data, data, pos + |t| + 12);
  }

  /** The packet a message travels in. */
  function ToPacket(x: Texts, m: S.Message): Packet {
    match m
    case ChunkData(_, _, _, _, _) => Packet(CHUNK_DATA_ID, 0, Some(EncChunk(x, m)))
    case DataInfo(_, _, _, _, _, _) => Packet(DATA_INFO_ID, 0, Some(x.other(m)))
    case PackStack(_, _, _) => Packet(PACK_STACK_ID, 0, Some(x.other(m)))
  }

  /** What the client makes of a packet: a chunk, or nothing it cares about. */
  datatype Seen = Chunk(m: S.Message) | Ignored

  function ClientDecode(x: Texts): (nat, Bytes) -> Decoded<Seen> {
    (id, view) =>
      if id != CHUNK_DATA_ID then Value(Seen.Ignored)
      else match GetChunk(x, view, 0) case Throw => Threw case Got(m, _) => Value(Seen.Chunk(m))
  }

  /** A world whose client has this decoder and knows every packet. */
  ghost predicate ClientWorld(w: World<Seen>, x: Texts) {
    && w.Lawful() && x.uuid.Lawful()
    && (forall id: nat :: w.known(id))
    && forall id: nat, view: Bytes :: w.decode(id, view) == ClientDecode(x)(id, view)
  }

  function See(m: S.Message): Seen {
    if m.ChunkData? then Seen.Chunk(WithoutVersion(m)) else Seen.Ignored
  }

  /** Chunk fields fit their wire widths, and so does the length of the packet. */
  predicate Sendable(x: Texts, m: S.Message) {
    (m.ChunkData? ==> ChunkFits(m)) && ToPacket(x, m).Fits()
  }

  lemma ChunkIsSeen(w: World<Seen>, x: Texts, m: S.Message, view: Bytes)
    requires ClientWorld(w, x) && m.ChunkData? && ChunkFits(m) && EncChunk(x, m) <= view
    ensures w.decode(CHUNK_DATA_ID, view) == Value(See(m))
  {
    hide EncChunk, GetChunk;
    assert At(view, 0, EncChunk(x, m));
    ChunkRoundTrip(x, m, view, 0);
    assert w.decode(CHUNK_DATA_ID, view) == ClientDecode(x)(CHUNK_DATA_ID, view);
  }

  lemma MessageIsGood(w: World<Seen>, x: Texts, m: S.Message)
    requires ClientWorld(w, x) && Sendable(x, m)
    ensures var p := ToPacket(x, m);
            && p.payload.Some? && p.id < 1024
            && GoodBatch(w, [p]) && !HasSettings(Encodable([p]))
            && Encodable([p]) == [p]
            && w.decode(p.id, p.payload.value) == Value(See(m))
  {
    hide EncChunk, EncPacket, GetChunk;
    var p := ToPacket(x, m);
    assert [p][1..] == [];
    forall view | p.payload.value <= view
      ensures w.decode(p.id, view) == Value(See(m))
    {
      if m.ChunkData? {
        ChunkIsSeen(w, x, m, view);
      } else {
        assert w.decode(p.id, view) == ClientDecode(x)(p.id, view);
      }
    }
    assert Delimited(w.decode, p);
  }

  // ----- A session on the wire -----

  /** What a server does, in order: a packet of the scheduler, sent at once, or any other call. */
  datatype Item = Scheduled(m: S.Message) | Other(op: Op)

  function OpOf(x: Texts, item: Item): Op {
    match item
    case Scheduled(m) => Send(ToPacket(x, m), true)
    case Other(op) => op
  }

  function Ops(x: Texts, items: seq<Item>): (r: seq<Op>)
    ensures |r| == |items|
  {
    if items == [] then [] else [OpOf(x, items[0])] + Ops(x, items[1..])
  }

  /** The packets of the scheduler among them. */
  function Messages(items: seq<Item>): seq<S.Message> {
    if items == [] then []
    else (if items[0].Scheduled? then [items[0].m] else []) + Messages(items[1..])
  }

  /** No packet of these is a chunk packet. */
  predicate Chunkless(ps: seq<Packet>) {
    forall p :: p in ps ==> p.id % 1024 != CHUNK_DATA_ID
  }

  predicate ChunklessOp(op: Op) {
    Chunkless(Queued([op])) && Chunkless(ImmediateOf(op))
  }

  /** The scheduler's packets fit, other calls keep to the conditions of the wire and carry no chunk. */
  ghost predicate ItemsFit(w: World<Seen>, x: Texts, s: Server, items: seq<Item>)
    decreases |items|
  {
    items == [] ||
    (ItemFits(w, x, s, items[0]) && ItemsFit(w, x, Serve(w, s, OpOf(x, items[0])), items[1..]))
  }

  ghost predicate ItemFits(w: World<Seen>, x: Texts, s: Server, item: Item) {
    match item
    case Scheduled(m) =>
      Sendable(x, m) && Recoverable(s.compression, s.algorithm, |EncAll([ToPacket(x, m)])|)
    case Other(op) => OpFits(w, s, op) && ChunklessOp(op)
  }

  lemma ItemIsFit(w: World<Seen>, x: Texts, s: Server, item: Item)
    requires ClientWorld(w, x) && ItemFits(w, x, s, item)
    ensures OpFits(w, s, OpOf(x, item))
  {
    hide GoodBatch, HasSettings, EncAll, ToPacket, Recoverable;
    if item.Scheduled? {
      MessageIsGood(w, x, item.m);
    }
  }

  lemma {:induction false} RunIsFit(w: World<Seen>, x: Texts, s: Server, items: seq<Item>)
    requires ClientWorld(w, x) && ItemsFit(w, x, s, items)
    ensures RunFits(w, s, Ops(x, items))
    decreases |items|
  {
    hide Serve, OpOf, OpFits, ItemFits, ClientWorld;
    if items != [] {
      ItemIsFit(w, x, s, items[0]);
      var ops := Ops(x, items);
      assert ops[1..] == Ops(x, items[1..]);
      RunIsFit(w, x, Serve(w, s, ops[0]), items[1..]);
    }
  }

  // ----- What the client sees -----

  function SeenChunk(d: Delivery<Seen>): seq<S.Message> {
    match d.v case Chunk(m) => [m] case Ignored => []
  }

  /** The chunks among what the client has seen. */
  function SeenChunks(ds: seq<Delivery<Seen>>): seq<S.Message> {
    if ds == [] then [] else SeenChunk(ds[0]) + SeenChunks(ds[1..])
  }

  lemma {:induction false} SeenConcat(a: seq<Delivery<Seen>>, b: seq<Delivery<Seen>>)
    ensures SeenChunks(a + b) == SeenChunks(a) + SeenChunks(b)
  {
    if a == [] {
      assert a + b == b;
    } else {
      hide SeenChunk;
      TailOfConcat(a, b);
      SeenConcat(a[1..], b);
      Assoc(SeenChunk(a[0]), SeenChunks(a[1..]), SeenChunks(b));
    }
  }

  function StripAll(chunks: seq<S.Message>): (r: seq<S.Message>)
    requires forall m :: m in chunks ==> m.ChunkData?
    ensures |r| == |chunks| && forall i :: 0 <= i < |r| ==> r[i] == WithoutVersion(chunks[i])
  {
    seq(|chunks|, i requires 0 <= i < |chunks| => assert chunks[i] in chunks; WithoutVersion(chunks[i]))
  }

  function ChunkSeen(m: S.Message): seq<S.Message> {
    if m.ChunkData? then [WithoutVersion(m)] else []
  }

  /** The chunks of a trace as the client sees them, from the front. */
  function ChunksSeen(trace: seq<S.Message>): seq<S.Message> {
    if trace == [] then [] else ChunkSeen(trace[0]) + ChunksSeen(trace[1..])
  }

  lemma {:induction false} ChunksSeenSnoc(trace: seq<S.Message>, m: S.Message)
    ensures ChunksSeen(trace + [m]) == ChunksSeen(trace) + ChunkSeen(m)
  {
    hide ChunkSeen;
    if trace == [] {
      assert trace + [m] == [m] && [m][1..] == [];
      assert ChunkSeen(m) + [] == [] + ChunkSeen(m);
    } else {
      TailOfConcat(trace, [m]);
      ChunksSeenSnoc(trace[1..], m);
      Assoc(ChunkSeen(trace[0]), ChunksSeen(trace[1..]), ChunkSeen(m));
    }
  }

  lemma {:induction false} ChunksSeenAre(trace: seq<S.Message>)
    ensures ChunksSeen(trace) == StripAll(R.Chunks(trace))
    decreases |trace|
  {
    if trace != [] {
      var before, m := trace[..|trace| - 1], trace[|trace| - 1];
      assert trace == before + [m];
      ChunksSeenAre(before);
      ChunksSeenSnoc(before, m);
      R.ChunksSnoc(before, m);
    }
  }

  lemma {:induction false} ChunklessUnseen(w: World<Seen>, x: Texts, ps: seq<Packet>)
    requires ClientWorld(w, x) && Chunkless(ps) && forall p :: p in ps ==> Readable(w, p)
    ensures SeenChunks(Deliveries(w, ps)) == []
  {
    if ps != [] {
      var p := ps[0];
      assert p in ps;
      assert w.decode(p.id % 1024, p.payload.value) == ClientDecode(x)(p.id % 1024, p.payload.value);
      ChunklessUnseen(w, x, ps[1..]);
      var ds := Deliveries(w, ps);
      assert ds[1..] == Deliveries(w, ps[1..]);
    }
  }

  /** One packet of the scheduler is seen as itself. */
  lemma ScheduledSeen(w: World<Seen>, x: Texts, m: S.Message)
    requires ClientWorld(w, x) && Sendable(x, m)
    ensures Encodable([ToPacket(x, m)]) == [ToPacket(x, m)] && Readable(w, ToPacket(x, m))
    ensures SeenChunks(Deliveries(w, [ToPacket(x, m)])) == if m.ChunkData? then [WithoutVersion(m)] else []
  {
    MessageIsGood(w, x, m);
    hide *;
    PacketSeen(w, ToPacket(x, m), m);
  }

  lemma PacketSeen(w: World<Seen>, p: Packet, m: S.Message)
    requires p.payload.Some? && p.id < 1024 && w.decode(p.id, p.payload.value) == Value(See(m))
    ensures Readable(w, p)
    ensures SeenChunks(Deliveries(w, [p])) == if m.ChunkData? then [WithoutVersion(m)] else []
  {
    assert [p][1..] == [];
    NoDeliveries(w);
    var d := Delivery(p.id, p.subClient % 4, See(m));
    assert Deliveries(w, [p]) == [d] && [d][1..] == [];
  }

  /** What one call shows the client, and that no chunk gets into the queue. */
  lemma ItemSeen(w: World<Seen>, x: Texts, s: Server, item: Item)
    requires ClientWorld(w, x) && ItemFits(w, x, s, item) && Chunkless(s.queue)
    requires forall p :: p in SentBy(s, OpOf(x, item)) ==> Readable(w, p)
    ensures Chunkless(Serve(w, s, OpOf(x, item)).queue)
    ensures SeenChunks(Deliveries(w, SentBy(s, OpOf(x, item)))) == ChunksSeen(Messages([item]))
  {
    hide Serve, Deliveries, SeenChunks, ClientWorld, EncAll, ToPacket, OpFits, Sendable, Recoverable, Readable;
    QueueAfter(w, s, OpOf(x, item));
    assert [item][1..] == [];
    match item
    case Scheduled(m) =>
      assert Queued([OpOf(x, item)]) == [] by { assert [OpOf(x, item)][1..] == []; }
      ScheduledSeen(w, x, m);
      assert [m][1..] == [];
    case Other(op) =>
      OneWayOut(s, op);
      ChunklessUnseen(w, x, SentBy(s, op));
  }

  lemma MessagesCons(items: seq<Item>)
    requires items != []
    ensures ChunksSeen(Messages(items)) == ChunksSeen(Messages([items[0]])) + ChunksSeen(Messages(items[1..]))
  {
    assert [items[0]][1..] == [];
    var rest := Messages(items[1..]);
    if items[0].Scheduled? {
      var m := items[0].m;
      assert Messages([items[0]]) == [m] && [m][1..] == [];
      assert ([m] + rest)[1..] == rest;
    } else {
      assert [] + rest == rest;
      assert ChunksSeen([]) + ChunksSeen(rest) == ChunksSeen(rest);
    }
  }

  /** Over a whole run, the chunks seen are those of the scheduler's packets, in order. */
  lemma {:induction false} ItemsSeen(w: World<Seen>, x: Texts, s: Server, items: seq<Item>)
    requires ClientWorld(w, x) && ItemsFit(w, x, s, items) && Chunkless(s.queue)
    requires forall p :: p in Sent(w, s, Ops(x, items)) ==> Readable(w, p)
    ensures SeenChunks(Deliveries(w, Sent(w, s, Ops(x, items)))) == ChunksSeen(Messages(items))
    decreases |items|
  {
    hide Serve, SentBy, Deliveries, SeenChunks, ChunksSeen, Messages, ItemFits, OpOf, ClientWorld, Readable, Chunkless;
    if items == [] {
      NothingSeen(w);
    } else {
      var item, rest := items[0], items[1..];
      var ops := Ops(x, items);
      assert ops[1..] == Ops(x, rest);
      var s' := Serve(w, s, ops[0]);
      var now, later := SentBy(s, ops[0]), Sent(w, s', ops[1..]);
      assert Sent(w, s, ops) == now + later;
      ItemSeen(w, x, s, item);
      ItemsSeen(w, x, s', rest);
      DeliveriesConcat(w, now, later);
      SeenConcat(Deliveries(w, now), Deliveries(w, later));
      MessagesCons(items);
    }
  }

  lemma NothingSeen(w: World<Seen>)
    ensures SeenChunks(Deliveries(w, [])) == [] == ChunksSeen(Messages([]))
  {}

  /** Rebuilding does not look at the version. */
  lemma {:induction false} RebuildStripped(buffer: Bytes, chunks: seq<S.Message>, id: Uuid)
    requires R.StaysInside(chunks, id, |buffer|)
    ensures R.StaysInside(StripAll(chunks), id, |buffer|)
    ensures R.Rebuild(buffer, StripAll(chunks), id) == R.Rebuild(buffer, chunks, id)
    decreases |chunks|
  {
    var stripped := StripAll(chunks);
    forall m | m in stripped
      ensures m.ChunkData? && (m.packId == id ==> m.progress + |m.data| <= |buffer|)
    {
      var i :| 0 <= i < |stripped| && stripped[i] == m;
      assert chunks[i] in chunks;
    }
    if chunks != [] {
      var before := chunks[..|chunks| - 1];
      RebuildStripped(buffer, before, id);
      assert stripped[..|chunks| - 1] == StripAll(before);
    }
  }

  /**
   Over any run of client messages, with the scheduler's packets sent as they come and any other
   sends, flushes and settings requests between them, a client that starts in step and has asked
   for every index of a pack holds exactly that pack.
   */
  lemma DownloadRebuildsPack(
      w: World<Seen>, x: Texts, s: Server, p: Peer<Log<Seen>>, items: seq<Item>,
      offer: S.Offer, events: seq<S.Event>, id: Uuid, buffer: Bytes)
    requires ClientWorld(w, x) && offer.Valid() && InSync(s, p) && p.inbox.state == []
    requires Messages(items) == S.Run(offer, events).trace
    requires ItemsFit(w, x, s, items) && Chunkless(s.queue)
    requires id in offer.packs && |buffer| == |offer.packs[id].content|
    requires forall i: nat :: i < offer.Count(id) ==> S.ChunkRequest(id, i) in events
    ensures var chunks := SeenChunks(Play(w, s, p, 0, Ops(x, items)).inbox.state);
            && R.StaysInside(chunks, id, |buffer|)
            && R.Rebuild(buffer, chunks, id) == offer.packs[id].content
  {
    hide S.Run, Play, SeenChunks, R.Rebuild, R.StaysInside, R.Chunks, R.TotalLength, StripAll, Ops, Messages,
         ItemsFit, ChunksSeen, Chunkless, Readable, Deliveries, Sent, RunFits;
    var trace, ops := S.Run(offer, events).trace, Ops(x, items);
    RunIsFit(w, x, s, items);
    EndToEnd(w, s, p, 0, ops);
    var received := Play(w, s, p, 0, ops).inbox.state;
    assert received == Deliveries(w, Sent(w, s, ops));
    ItemsSeen(w, x, s, items);
    ChunksSeenAre(trace);
    R.Reassembly(offer, events, id, buffer);
    RebuildStripped(buffer, R.Chunks(trace), id);
  }
}
