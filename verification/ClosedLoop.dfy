/**
 Requests in, pack out: batches of chunk requests reach the scheduler through the router, and what the
 scheduler sends in answer travels back to the client that asked.
 */
module ClosedLoop {
  import opened Common
  import opened Codec
  import opened ChunkRequest
  import opened Framing
  import opened Wire
  import opened Download
  import Q = PackQueue

  const CHUNK_REQUEST_ID: nat := 0x54

  /** Chunk requests as a client lists them. */
  type Asked = seq<(Uuid, int)>

  predicate Askable(qs: Asked) {
    forall q :: q in qs ==> IsInt16(q.1)
  }

  function Events(qs: Asked): seq<S.Event> {
    if qs == [] then [] else [S.ChunkRequest(qs[0].0, qs[0].1)] + Events(qs[1..])
  }

  function RequestPacket(x: UuidText, q: (Uuid, int)): Packet {
    Packet(CHUNK_REQUEST_ID, 0, Some(EncChunkRequest(x, q.0, q.1)))
  }

  function Packets(x: UuidText, qs: Asked): seq<Packet> {
    if qs == [] then [] else [RequestPacket(x, qs[0])] + Packets(x, qs[1..])
  }

  /** The handlers of the server: each decoded message is a step of the scheduler. */
  function Steps(o: S.Offer): Handler<S.Event, S.View> {
    (s: Inbox<S.View>, id, sub, e) =>
      (if S.ViewFits(o, s.state) then s.(state := S.Step(o, s.state, e)) else s, true)
  }

  /** A world whose server decodes chunk requests; it may know any other packets. */
  ghost predicate ServerWorld(w: World<S.Event>, x: UuidText) {
    && w.Lawful() && x.Lawful() && w.known(CHUNK_REQUEST_ID)
    && forall view: Bytes :: w.decode(CHUNK_REQUEST_ID, view) == Decoding(x, view)
  }

  function Decoding(x: UuidText, view: Bytes): Decoded<S.Event> {
    match GetChunkRequest(x, view, 0) case Throw => Threw case Got(e, _) => Value(e)
  }

  lemma RequestIsDecoded(w: World<S.Event>, x: UuidText, q: (Uuid, int))
    requires ServerWorld(w, x) && IsInt16(q.1)
    ensures OwnPacket(w, RequestPacket(x, q))
    ensures w.decode(CHUNK_REQUEST_ID, EncChunkRequest(x, q.0, q.1)) == Value(S.ChunkRequest(q.0, q.1))
  {
    hide GetChunkRequest, EncChunkRequest;
    var payload := EncChunkRequest(x, q.0, q.1);
    RequestSize(x, q);
    forall view | payload <= view
      ensures w.decode(CHUNK_REQUEST_ID, view) == Value(S.ChunkRequest(q.0, q.1))
    {
      assert At(view, 0, payload);
      RequestRoundTrip(x, q.0, q.1, view, 0);
    }
    assert payload <= payload;
  }

  lemma RequestSize(x: UuidText, q: (Uuid, int))
    requires x.Lawful()
    ensures |EncChunkRequest(x, q.0, q.1)| == 39
  {}

  lemma {:induction false} RequestsOwn(w: World<S.Event>, x: UuidText, qs: Asked)
    requires ServerWorld(w, x) && Askable(qs)
    ensures forall p :: p in Packets(x, qs) ==> OwnPacket(w, p)
    ensures Encodable(Packets(x, qs)) == Packets(x, qs)
    ensures AllFit(Packets(x, qs))
    ensures qs == [] <==> Packets(x, qs) == []
  {
    hide ServerWorld, Delimited;
    if qs != [] {
      assert qs[0] in qs;
      RequestIsDecoded(w, x, qs[0]);
      RequestsOwn(w, x, qs[1..]);
      var rest := Packets(x, qs[1..]);
      assert ([RequestPacket(x, qs[0])] + rest)[1..] == rest;
    }
  }

  /** The frames of the requests drive the scheduler through them, one step each. */
  lemma {:induction false} RequestsStep(
      w: World<S.Event>, x: UuidText, o: S.Offer, inbox: Inbox<S.View>, before: seq<S.Event>, qs: Asked)
    requires ServerWorld(w, x) && Askable(qs) && o.Valid() && inbox.state == S.Run(o, before)
    ensures AllFit(Packets(x, qs))
    ensures DeliverAll(w.Table(Steps(o)), inbox, OwnFrames(Packets(x, qs))) ==
            (inbox.(state := S.Run(o, before + Events(qs))), Finished)
    decreases |qs|
  {
    hide S.Run, S.Step, ServerWorld, EncChunkRequest;
    RequestsOwn(w, x, qs);
    if qs == [] {
      assert before + [] == before;
    } else {
      var q, rest := qs[0], qs[1..];
      assert q in qs;
      var e := S.ChunkRequest(q.0, q.1);
      RequestIsDecoded(w, x, q);
      KnowsRequests(w, x);
      Q.RunSnoc(o, before, e);
      RequestsOwn(w, x, rest);
      var frames := OwnFrames(Packets(x, qs));
      assert Packets(x, qs)[1..] == Packets(x, rest);
      assert frames[1..] == OwnFrames(Packets(x, rest));
      var next := inbox.(state := S.Run(o, before + [e]));
      assert Deliver(w.Table(Steps(o)), inbox, frames[0]) == (next, None);
      RequestsStep(w, x, o, next, before + [e], rest);
      Assoc(before, [e], Events(rest));
    }
  }

  lemma KnowsRequests(w: World<S.Event>, x: UuidText)
    requires ServerWorld(w, x)
    ensures w.known(CHUNK_REQUEST_ID) && w.Lawful()
  {}

  /** A batch of requests that passes envelope, cipher and router takes the scheduler through them. */
  lemma BatchSteps(
      w: World<S.Event>, x: UuidText, o: S.Offer, c: Server, p: Peer<S.View>, i: nat,
      before: seq<S.Event>, qs: Asked)
    requires ServerWorld(w, x) && Askable(qs) && o.Valid() && InSync(c, p) && p.inbox.state == S.Run(o, before)
    requires Recoverable(c.compression, c.algorithm, |EncAll(Packets(x, qs))|)
    ensures var c' := Transmit(w, c, EncAll(Packets(x, qs)));
            && w.Lawful() && |c'.transport| == |c.transport| + 1 && c'.transport[|c.transport|] != []
            && Receive(w, Steps(o), p, i, c'.transport[|c.transport|]).0 ==
               Peer(p.encryption, c'.channel, p.inbox.(state := S.Run(o, before + Events(qs))))
  {
    hide S.Run, ServerWorld, Receive, Transmit, EncAll, OwnPacket, Recoverable, DeliverAll, OwnFrames;
    KnowsRequests(w, x);
    RequestsOwn(w, x, qs);
    RequestsStep(w, x, o, p.inbox, before, qs);
    if qs == [] {
      EmptyHandled(w, Steps(o), c, p, i, Packets(x, qs));
      assert before + [] == before;
    } else {
      BatchHandled(w, Steps(o), c, p, i, Packets(x, qs));
    }
  }

  // ----- Any number of batches -----

  function AllEvents(batches: seq<Asked>): seq<S.Event> {
    if batches == [] then [] else Events(batches[0]) + AllEvents(batches[1..])
  }

  ghost predicate BatchesFit(x: UuidText, on: bool, algorithm: byte, batches: seq<Asked>) {
    forall qs :: qs in batches ==> Askable(qs) && Recoverable(on, algorithm, |EncAll(Packets(x, qs))|)
  }

  /** The server after each batch was sent by the client and received. */
  function Asking(
      w: World<S.Event>, x: UuidText, o: S.Offer, c: Server, p: Peer<S.View>, i: nat, batches: seq<Asked>)
      : (Server, Peer<S.View>)
    requires w.Lawful()
    decreases |batches|
  {
    if batches == [] then (c, p)
    else
      var ask := SendBatch(Packets(x, batches[0]), true);
      var c' := Serve(w, c, ask);
      TransportGrows(w, c, ask);
      Asking(w, x, o, c', Receive(w, Steps(o), p, i, c'.transport[|c.transport|]).0, i + 1, batches[1..])
  }

  lemma {:induction false} AskingSteps(
      w: World<S.Event>, x: UuidText, o: S.Offer, c: Server, p: Peer<S.View>, i: nat,
      before: seq<S.Event>, batches: seq<Asked>)
    requires ServerWorld(w, x) && o.Valid() && InSync(c, p) && p.inbox.state == S.Run(o, before)
    requires BatchesFit(x, c.compression, c.algorithm, batches)
    ensures w.Lawful()
    ensures var (c', p') := Asking(w, x, o, c, p, i, batches);
            InSync(c', p') && p'.inbox.state == S.Run(o, before + AllEvents(batches))
    decreases |batches|
  {
    hide S.Run, ServerWorld, Receive, Transmit, EncAll, Recoverable, Steps;
    KnowsRequests(w, x);
    if batches == [] {
      assert before + [] == before;
    } else {
      var qs, rest := batches[0], batches[1..];
      assert qs in batches;
      var payload := EncAll(Packets(x, qs));
      BatchSteps(w, x, o, c, p, i, before, qs);
      TransmitKeeps(w, c, payload);
      var c' := Transmit(w, c, payload);
      var p' := Receive(w, Steps(o), p, i, c'.transport[|c.transport|]).0;
      AskingSteps(w, x, o, c', p', i + 1, before + Events(qs), rest);
      Assoc(before, Events(qs), AllEvents(rest));
    }
  }

  ghost predicate IsAsked(batches: seq<Asked>, id: Uuid, index: int) {
    exists qs :: qs in batches && (id, index) in qs
  }

  lemma {:induction false} AskedIsEvent(batches: seq<Asked>, qs: Asked, q: (Uuid, int))
    requires qs in batches && q in qs
    ensures S.ChunkRequest(q.0, q.1) in AllEvents(batches)
    decreases |batches|
  {
    var first, rest := batches[0], batches[1..];
    assert batches == [first] + rest;
    if q in first {
      EventOf(first, q);
    } else {
      AskedIsEvent(rest, qs, q);
    }
  }

  lemma AskedIsInRun(before: seq<S.Event>, batches: seq<Asked>, id: Uuid, index: int)
    requires IsAsked(batches, id, index)
    ensures S.ChunkRequest(id, index) in before + AllEvents(batches)
  {
    hide AllEvents;
    var qs :| qs in batches && (id, index) in qs;
    AskedIsEvent(batches, qs, (id, index));
  }

  lemma {:induction false} EventOf(qs: Asked, q: (Uuid, int))
    requires q in qs
    ensures S.ChunkRequest(q.0, q.1) in Events(qs)
  {
    assert qs == [qs[0]] + qs[1..];
    if q != qs[0] {
      EventOf(qs[1..], q);
    }
  }

  /**
   The loop closed: a client asks for every index of a pack in batches of encoded requests, framed,
   enveloped and encrypted; the server's handlers run the scheduler on what the router decodes; what
   the scheduler sends comes back the same way, with any other traffic; and the client holds the pack.
   */
  lemma AskedPackArrives(
      up: World<S.Event>, down: World<Seen>, x: Texts, o: S.Offer, before: seq<S.Event>,
      c: Server, p: Peer<S.View>, batches: seq<Asked>,
      s: Server, client: Peer<Log<Seen>>, items: seq<Item>, id: Uuid, buffer: Bytes)
    requires ServerWorld(up, x.uuid) && ClientWorld(down, x) && o.Valid()
    requires InSync(c, p) && p.inbox.state == S.Run(o, before)
    requires BatchesFit(x.uuid, c.compression, c.algorithm, batches)
    requires InSync(s, client) && client.inbox.state == [] && Chunkless(s.queue)
    requires ItemsFit(down, x, s, items)
    requires Messages(items) == Asking(up, x.uuid, o, c, p, 0, batches).1.inbox.state.trace
    requires id in o.packs && |buffer| == |o.packs[id].content|
    requires forall i: nat :: i < o.Count(id) ==> IsAsked(batches, id, i)
    ensures var chunks := SeenChunks(Play(down, s, client, 0, Ops(x, items)).inbox.state);
            && R.StaysInside(chunks, id, |buffer|)
            && R.Rebuild(buffer, chunks, id) == o.packs[id].content
  {
    hide S.Run, Play, SeenChunks, R.Rebuild, R.StaysInside, Ops, Messages, ItemsFit, ClientWorld, ServerWorld,
         Asking, AllEvents, BatchesFit, IsAsked, S.Offer.Count;
    AskingSteps(up, x.uuid, o, c, p, 0, before, batches);
    forall i: nat | i < o.Count(id)
      ensures S.ChunkRequest(id, i) in before + AllEvents(batches)
    {
      AskedIsInRun(before, batches, id, i);
    }
    DownloadRebuildsPack(down, x, s, client, items, o, before + AllEvents(batches), id, buffer);
  }
}
