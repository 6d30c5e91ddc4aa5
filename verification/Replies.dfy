/**
 A second account of the scheduler, from the client's messages alone: what each is answered with, which
 packs are loaded and in which order they come. It knows no flags, no queue and no current pack.
 */
module Replies {
  import opened Common
  import opened Codec
  import opened ChunkMath
  import opened SchedulerSpec
  import opened SchedulerRuns

  /** The announced names, up to the first unknown one. */
  function Known(o: Offer, ids: seq<Uuid>): (r: seq<Uuid>)
    ensures forall id :: id in r ==> id in o.packs
  {
    if ids == [] || ids[0] !in o.packs then [] else [ids[0]] + Known(o, ids[1..])
  }

  function Infos(o: Offer, ids: seq<Uuid>): seq<Message>
    requires o.Valid() && forall id :: id in ids ==> id in o.packs
  {
    if ids == [] then []
    else
      assert ids[0] in ids;
      var p := o.packs[ids[0]];
      [DataInfo(ids[0], p.version, o.maxChunk, (|p.content| + o.maxChunk - 1) / o.maxChunk, |p.content|, p.sha256)]
      + Infos(o, ids[1..])
  }

  /** The answer to `e` after `before`: a chunk is sent for the first request of an index inside the pack. */
  function Answer(o: Offer, before: seq<Event>, e: Event): seq<Message>
    requires o.Valid()
  {
    match e
    case SendPacks(ids) => Infos(o, Known(o, ids))
    case ChunkRequest(id, idx) =>
      if id in o.packs && idx >= 0 && idx * o.maxChunk < |o.packs[id].content| && e !in before then
        var content, start := o.packs[id].content, idx * o.maxChunk;
        var end := if start + o.maxChunk < |content| then start + o.maxChunk else |content|;
        [ChunkData(id, o.packs[id].version, idx, start, Between(content, start, end))]
      else []
    case HaveAllPacks => [PackStack(o.force, o.stack, [0x32, 0x36, 0x2e, 0x30])]
    case Refused => []
    case Completed => []
  }

  function Between(content: Bytes, start: int, end: int): Bytes {
    if 0 <= start <= end <= |content| then content[start..end] else []
  }

  function Answers(o: Offer, events: seq<Event>): seq<Message>
    requires o.Valid()
  {
    if events == [] then []
    else
      var before, e := events[..|events| - 1], events[|events| - 1];
      Answers(o, before) + Answer(o, before, e)
  }

  // ----- The packets sent -----

  lemma {:induction false} AnnounceAllAnswers(o: Offer, v: View, ids: seq<Uuid>)
    requires o.Valid()
    ensures AnnounceAll(o, v, ids).trace == v.trace + Infos(o, Known(o, ids))
    decreases |ids|
  {
    if ids == [] || ids[0] !in o.packs {
      assert v.trace + [] == v.trace;
    } else {
      var known := Known(o, ids[1..]);
      assert Known(o, ids) == [ids[0]] + known && ([ids[0]] + known)[1..] == known;
      var v' := Announce(o, v, ids[0]);
      AnnounceAllAnswers(o, v', ids[1..]);
      Assoc(v.trace, [v'.trace[|v.trace|]], Infos(o, known));
    }
  }

  /** A chunk in terms of the file: index, offset and the bytes up to the next offset or the end. */
  lemma ChunkIs(o: Offer, id: Uuid, idx: nat)
    requires o.Valid() && id in o.packs
    ensures o.Serves(id, idx) <==> idx * o.maxChunk < |o.packs[id].content|
    ensures o.Serves(id, idx) ==>
              var content, start := o.packs[id].content, idx * o.maxChunk;
              var end := if start + o.maxChunk < |content| then start + o.maxChunk else |content|;
              o.Chunk(id, idx) == ChunkData(id, o.packs[id].version, idx, start, Between(content, start, end))
  {
    SliceInside(|o.packs[id].content|, idx, o.maxChunk);
  }

  lemma RequestAnswers(o: Offer, v: View, before: seq<Event>, id: Uuid, idx: int)
    requires ViewFits(o, v) && Marks(o, v, ValidRequests(o, before))
    ensures Request(o, v, id, idx).trace == v.trace + Answer(o, before, ChunkRequest(id, idx))
  {
    hide Slice, SliceStart, ChunkCount, Mark, Marks, ValidRequests, Between;
    assert v.trace + [] == v.trace;
    if id in o.packs {
      var ready := Select(Load(o, v, id), id);
      if idx >= 0 {
        ChunkIs(o, id, idx);
        if o.Serves(id, idx) {
          LoadMarks(o, v, id, ValidRequests(o, before));
          MarkedIsRequested(o, Load(o, v, id), before, id, idx);
          MarkEffects(ready.(trace := ready.trace + [o.Chunk(id, idx)]), id, idx);
        }
      } else {
        NotServed(o, id, idx);
      }
    }
  }

  lemma NotServed(o: Offer, id: Uuid, idx: int)
    requires o.Valid() && idx < 0
    ensures !o.Serves(id, idx)
  {}

  lemma MarkedIsRequested(o: Offer, v: View, before: seq<Event>, id: Uuid, idx: nat)
    requires ViewFits(o, v) && Marks(o, v, ValidRequests(o, before)) && id in v.loaded && o.Serves(id, idx)
    ensures v.loaded[id][idx] <==> ChunkRequest(id, idx) in before
  {
    hide ChunkCount, ValidRequests;
    var done := ValidRequests(o, before);
    assert v.loaded[id][idx] <==> (id, idx) in done;
    if (id, idx) in done {
      ValidIsRequested(o, before, id, idx);
    }
    if ChunkRequest(id, idx) in before {
      RequestedIsValid(o, before, id, idx);
    }
  }

  /** Everything a session sends, in order, for every sequence of client messages. */
  lemma {:induction false} TraceIsAnswers(o: Offer, events: seq<Event>)
    requires o.Valid()
    ensures Run(o, events).trace == Answers(o, events)
  {
    hide Request, AnnounceAll, Marks, ValidRequests, Infos, Known;
    if events != [] {
      var before, e := events[..|events| - 1], events[|events| - 1];
      TraceIsAnswers(o, before);
      var v := Run(o, before);
      assert v.trace + [] == v.trace;
      match e
      case SendPacks(ids) => AnnounceAllAnswers(o, v, ids);
      case ChunkRequest(id, idx) =>
        TraceIsFirstRequests(o, before);
        RequestAnswers(o, v, before, id, idx);
      case _ =>
    }
  }

  /** The chunk packets of a run, field by field: the i-th carries the i-th servable request not made before. */
  lemma ChunkFields(o: Offer, events: seq<Event>, i: nat)
    requires o.Valid() && i < |Firsts(ValidRequests(o, events))|
    ensures var k := Firsts(ValidRequests(o, events))[i];
            var chunks := Chunks(Run(o, events).trace);
            && k.0 in o.packs && i < |chunks| && chunks[i].ChunkData?
            && chunks[i].packId == k.0 && chunks[i].packVersion == o.packs[k.0].version
            && chunks[i].chunkIndex == k.1
            && chunks[i].progress == k.1 * o.maxChunk
            && var content, m := o.packs[k.0].content, chunks[i];
            && m.progress + |m.data| <= |content|
            && m.data == content[m.progress..m.progress + |m.data|]
            && (|m.data| == o.maxChunk || m.progress + |m.data| == |content|)
            && 1 <= |m.data| <= o.maxChunk
  {
    hide Run, ValidRequests, Firsts, ChunkCount, Chunks, Marks;
    TraceIsFirstRequests(o, events);
    var keys := Firsts(ValidRequests(o, events));
    var k := keys[i];
    assert k in keys;
    ChunkIs(o, k.0, k.1);
    SliceInside(|o.packs[k.0].content|, k.1, o.maxChunk);
  }

  // ----- When a session asks for a disconnect -----

  /** A message that marks the session for disconnection. */
  predicate Offends(o: Offer, e: Event) {
    match e
    case SendPacks(ids) => exists id :: id in ids && id !in o.packs
    case ChunkRequest(id, _) => id !in o.packs
    case Refused => o.force
    case _ => false
  }

  lemma {:induction false} AnnounceAllOffends(o: Offer, v: View, ids: seq<Uuid>)
    requires o.Valid()
    ensures AnnounceAll(o, v, ids).disconnect <==> v.disconnect || Offends(o, SendPacks(ids))
    decreases |ids|
  {
    if ids != [] {
      assert ids == [ids[0]] + ids[1..];
      if ids[0] in o.packs {
        AnnounceAllOffends(o, Announce(o, v, ids[0]), ids[1..]);
      } else {
        assert ids[0] in ids;
      }
    }
  }

  /** A session is marked for disconnection iff the client sent a message that offends. */
  lemma {:induction false} DisconnectsIff(o: Offer, events: seq<Event>)
    requires o.Valid()
    ensures Run(o, events).disconnect <==> exists e :: e in events && Offends(o, e)
  {
    if events != [] {
      hide AnnounceAll, Serve, ChunkCount, Offends;
      var before, e := events[..|events| - 1], events[|events| - 1];
      assert events == before + [e];
      DisconnectsIff(o, before);
      StepOffends(o, Run(o, before), e);
      assert e in events;
    }
  }

  lemma StepOffends(o: Offer, v: View, e: Event)
    requires ViewFits(o, v)
    ensures Step(o, v, e).disconnect <==> v.disconnect || Offends(o, e)
  {
    hide AnnounceAll, Serve, ChunkCount;
    match e
    case SendPacks(ids) => AnnounceAllOffends(o, v, ids);
    case ChunkRequest(id, idx) =>
      if o.Serves(id, idx) {
        ServeKeeps(o, Select(Load(o, v, id), id), id, idx);
      }
    case _ =>
  }

  // ----- The packs of a session, in the order they come up -----

  /** Announced packs as they are announced, requested ones when they are new. */
  function Mention(o: Offer, before: seq<Uuid>, e: Event): seq<Uuid> {
    match e
    case SendPacks(ids) => before + Known(o, ids)
    case ChunkRequest(id, _) => if id in o.packs then WithNew(before, id) else before
    case _ => before
  }

  function WithNew(ids: seq<Uuid>, id: Uuid): seq<Uuid> { if id in ids then ids else ids + [id] }

  function Mentioned(o: Offer, events: seq<Event>): seq<Uuid> {
    if events == [] then [] else Mention(o, Mentioned(o, events[..|events| - 1]), events[|events| - 1])
  }

  lemma {:induction false} AnnounceAllLoads(o: Offer, v: View, ids: seq<Uuid>)
    requires o.Valid()
    ensures forall id :: id in AnnounceAll(o, v, ids).loaded <==> id in v.loaded || id in Known(o, ids)
    ensures AnnounceAll(o, v, ids).queue == v.queue + Known(o, ids)
    ensures AnnounceAll(o, v, ids).current == v.current
    decreases |ids|
  {
    if ids == [] || ids[0] !in o.packs {
      assert v.queue + [] == v.queue;
    } else {
      AnnounceAllLoads(o, Announce(o, v, ids[0]), ids[1..]);
      Assoc(v.queue, [ids[0]], Known(o, ids[1..]));
    }
  }

  /** Exactly the packs that came up are loaded. */
  lemma {:induction false} LoadedIff(o: Offer, events: seq<Event>, id: Uuid)
    requires o.Valid()
    ensures id in Run(o, events).loaded <==> id in Mentioned(o, events)
  {
    if events != [] {
      hide AnnounceAll, Serve, ChunkCount, Known;
      var before, e := events[..|events| - 1], events[|events| - 1];
      LoadedIff(o, before, id);
      var v := Run(o, before);
      match e
      case SendPacks(ids) => AnnounceAllLoads(o, v, ids);
      case ChunkRequest(x, idx) =>
        if x in o.packs {
          LoadedIff(o, before, x);
          if o.Serves(x, idx) {
            ServeKeeps(o, Select(Load(o, v, x), x), x, idx);
          }
        }
      case _ =>
    }
  }
}
