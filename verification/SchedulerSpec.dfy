/**
 The resource-pack scheduler as a specification: what one client message does to the state a
 client can observe. There is no pending queue, no cursor and no file stream here.
 */
module SchedulerSpec {
  import opened Common
  import opened Codec
  import opened ChunkMath

  datatype PackInfo = PackInfo(content: Bytes, version: Bytes, sha256: Bytes)

  /** An entry of the stack packet. */
  datatype StackEntry = StackEntry(packId: Uuid, packVersion: Bytes, subPackName: Bytes)

  /** "26.0", the game version the stack packet names. */
  const BASE_VERSION: Bytes := [0x32, 0x36, 0x2e, 0x30]

  /** What the server offers: constant during a session. `stack` lists the packs in load order. */
  datatype Offer = Offer(packs: map<Uuid, PackInfo>, stack: seq<StackEntry>, maxChunk: nat, force: bool) {
    predicate Valid() { maxChunk > 0 }

    function Count(id: Uuid): nat
      requires maxChunk > 0 && id in packs
    {
      ChunkCount(|packs[id].content|, maxChunk)
    }

    /** A request the server can serve: a known pack and an index it has. */
    predicate Serves(id: Uuid, idx: int)
      requires maxChunk > 0
    {
      id in packs && 0 <= idx < Count(id)
    }

    function Chunk(id: Uuid, idx: nat): Message
      requires maxChunk > 0 && Serves(id, idx)
    {
      ChunkData(id, packs[id].version, idx, SliceStart(idx, maxChunk), Slice(packs[id].content, idx, maxChunk))
    }
  }

  /** The packets the handlers send. */
  datatype Message =
    | DataInfo(
        packId: Uuid, packVersion: Bytes, maxChunkSize: nat, chunkCount: nat, compressedPackSize: nat, sha256: Bytes)
    | ChunkData(packId: Uuid, packVersion: Bytes, chunkIndex: nat, progress: nat, data: Bytes)
    | PackStack(mustAccept: bool, resourcePackStack: seq<StackEntry>, baseGameVersion: Bytes)

  datatype View = View(
    loaded: map<Uuid, seq<bool>>,   // which chunks of each loaded pack have been sent
    queue: seq<Uuid>,
    current: Uuid,
    trace: seq<Message>,            // everything sent, in order
    completions: seq<Uuid>,         // the pack whose last chunk went out, at each call of `nextPack`
    disconnect: bool)

  datatype Event =
    | SendPacks(ids: seq<Uuid>)
    | ChunkRequest(id: Uuid, idx: int)
    | Refused
    | HaveAllPacks
    | Completed

  const INITIAL := View(map[], [], NIL, [], [], false)

  predicate AllSent(flags: seq<bool>) {
    forall i :: 0 <= i < |flags| ==> flags[i]
  }

  predicate ViewFits(o: Offer, v: View) {
    && o.Valid()
    && forall id :: id in v.loaded ==> id in o.packs && |v.loaded[id]| == o.Count(id)
  }

  function Load(o: Offer, v: View, id: Uuid): (r: View)
    requires o.Valid() && id in o.packs
    ensures ViewFits(o, v) ==> ViewFits(o, r)
  {
    if id in v.loaded then v else v.(loaded := v.loaded[id := seq(o.Count(id), _ => false)])
  }

  /** One announced pack: always queued again, never loaded again. */
  function Announce(o: Offer, v: View, id: Uuid): (r: View)
    requires o.Valid() && id in o.packs
    ensures ViewFits(o, v) ==> ViewFits(o, r)
  {
    var p := o.packs[id];
    var info := DataInfo(id, p.version, o.maxChunk, o.Count(id), |p.content|, p.sha256);
    Load(o, v.(queue := v.queue + [id], trace := v.trace + [info]), id)
  }

  function AnnounceAll(o: Offer, v: View, ids: seq<Uuid>): View
    requires o.Valid()
    decreases |ids|
  {
    if ids == [] then v
    else if ids[0] !in o.packs then v.(disconnect := true)
    else AnnounceAll(o, Announce(o, v, ids[0]), ids[1..])
  }

  function Remove(q: seq<Uuid>, id: Uuid): (r: seq<Uuid>)
    ensures forall x :: x in r <==> x in q && x != id
  {
    if q == [] then []
    else if q[0] == id then Remove(q[1..], id)
    else [q[0]] + Remove(q[1..], id)
  }

  /** `nextPack`: it removes the current pack, which need not be the one that finished. */
  function Advance(v: View): View {
    if v.queue == [] then v.(current := NIL)
    else
      var rest := if v.queue[0] == v.current then v.queue[1..] else Remove(v.queue, v.current);
      v.(queue := rest, current := if rest == [] then NIL else rest[0])
  }

  /** Record a chunk as sent; when it was the last one missing, move on to the next pack. */
  function Mark(v: View, id: Uuid, idx: nat): View
    requires id in v.loaded && idx < |v.loaded[id]|
  {
    var flags := v.loaded[id][idx := true];
    var marked := v.(loaded := v.loaded[id := flags]);
    if AllSent(flags) then Advance(marked.(completions := marked.completions + [id])) else marked
  }

  /** Serve one chunk, unless it has been sent before. */
  function Serve(o: Offer, v: View, id: Uuid, idx: nat): (r: View)
    requires ViewFits(o, v) && id in v.loaded && idx < o.Count(id)
    ensures ViewFits(o, r)
  {
    if v.loaded[id][idx] then v else Mark(v.(trace := v.trace + [o.Chunk(id, idx)]), id, idx)
  }

  /** The pack being asked for becomes current if none is, and is queued if it is not. */
  function Select(v: View, id: Uuid): View {
    v.(current := if v.current == NIL then id else v.current,
       queue := if id in v.queue then v.queue else v.queue + [id])
  }

  function Request(o: Offer, v: View, id: Uuid, idx: int): (r: View)
    requires ViewFits(o, v)
    ensures ViewFits(o, r)
  {
    if id !in o.packs then v.(disconnect := true) else RequestLoaded(o, Load(o, v, id), id, idx)
  }

  /** A request for a loaded pack; an index out of range selects the pack and sends nothing. */
  function RequestLoaded(o: Offer, v: View, id: Uuid, idx: int): (r: View)
    requires ViewFits(o, v) && id in v.loaded
    ensures ViewFits(o, r)
  {
    var ready := Select(v, id);
    if 0 <= idx < o.Count(id) then Serve(o, ready, id, idx) else ready
  }

  function Step(o: Offer, v: View, e: Event): (v': View)
    requires ViewFits(o, v)
    ensures ViewFits(o, v')
  {
    match e
    case SendPacks(ids) => AnnounceAllFits(o, v, ids); AnnounceAll(o, v, ids)
    case ChunkRequest(id, idx) => Request(o, v, id, idx)
    case Refused => if o.force then v.(disconnect := true) else v
    case HaveAllPacks => v.(trace := v.trace + [PackStack(o.force, o.stack, BASE_VERSION)])
    case Completed => v
  }

  lemma {:induction false} AnnounceAllFits(o: Offer, v: View, ids: seq<Uuid>)
    requires ViewFits(o, v)
    ensures ViewFits(o, AnnounceAll(o, v, ids))
    decreases |ids|
  {
    if ids != [] && ids[0] in o.packs {
      AnnounceAllFits(o, Announce(o, v, ids[0]), ids[1..]);
    }
  }

  /** The state after any sequence of client messages. */
  function Run(o: Offer, events: seq<Event>): (v: View)
    requires o.Valid()
    ensures ViewFits(o, v)
  {
    if events == [] then INITIAL
    else Step(o, Run(o, events[..|events| - 1]), events[|events| - 1])
  }

  // ----- The queue of pending requests -----

  /** A queue of requests served in order; an index out of range stops it and disconnects. */
  function Drain(o: Offer, v: View, pending: seq<(Uuid, int)>): (r: (View, seq<(Uuid, int)>))
    requires ViewFits(o, v)
    ensures ViewFits(o, r.0)
    decreases |pending|
  {
    if pending == [] then (v, [])
    else
      var (id, idx) := pending[0];
      if id !in v.loaded then Drain(o, v, pending[1..])
      else if 0 <= idx < o.Count(id) then Drain(o, Serve(o, v, id, idx), pending[1..])
      else (v.(disconnect := true), pending[1..])
  }

  predicate InRange(o: Offer, v: View, pending: seq<(Uuid, int)>)
    requires ViewFits(o, v)
  {
    forall p <- pending :: p.0 in v.loaded && 0 <= p.1 < o.Count(p.0)
  }

  lemma ServeKeeps(o: Offer, v: View, id: Uuid, idx: nat)
    requires ViewFits(o, v) && id in v.loaded && idx < o.Count(id)
    ensures Serve(o, v, id, idx).loaded.Keys == v.loaded.Keys
    ensures Serve(o, v, id, idx).disconnect == v.disconnect
  {
    hide Slice, SliceStart, ChunkCount, Remove, AllSent;
  }

  /** Over in-range requests, of any number, the queue empties and the disconnect flag never rises. */
  lemma {:induction false} DrainEmpties(o: Offer, v: View, pending: seq<(Uuid, int)>)
    requires ViewFits(o, v) && InRange(o, v, pending)
    ensures Drain(o, v, pending).1 == []
    ensures Drain(o, v, pending).0.disconnect == v.disconnect
    ensures Drain(o, v, pending).0.loaded.Keys == v.loaded.Keys
    decreases |pending|
  {
    hide Serve, ChunkCount;
    if pending != [] {
      var (id, idx) := pending[0];
      assert pending[0] in pending;
      ServeKeeps(o, v, id, idx);
      DrainEmpties(o, Serve(o, v, id, idx), pending[1..]);
    }
  }

  /** An entry of a loaded pack with an index the pack does not have. */
  predicate Stops(o: Offer, loaded: set<Uuid>, p: (Uuid, int))
    requires o.Valid() && loaded <= o.packs.Keys
  {
    p.0 in loaded && !(0 <= p.1 < o.Count(p.0))
  }

  /** On any queue, the drain disconnects if and only if it holds an entry that stops it. */
  lemma {:induction false} DrainDisconnects(o: Offer, v: View, pending: seq<(Uuid, int)>)
    requires ViewFits(o, v)
    ensures Drain(o, v, pending).0.disconnect <==>
            v.disconnect || exists p :: p in pending && Stops(o, v.loaded.Keys, p)
    decreases |pending|
  {
    hide Serve, ChunkCount;
    if pending != [] {
      var head, rest := pending[0], pending[1..];
      assert pending == [head] + rest;
      if Stops(o, v.loaded.Keys, head) {
        assert head in pending;
      } else if head.0 in v.loaded {
        ServeKeeps(o, v, head.0, head.1);
        DrainDisconnects(o, Serve(o, v, head.0, head.1), rest);
      } else {
        DrainDisconnects(o, v, rest);
      }
    }
  }

  /** A request is a queue of one, or of none when its index is out of range. */
  lemma RequestByDrain(o: Offer, v: View, id: Uuid, idx: int)
    requires ViewFits(o, v) && id in v.loaded
    ensures var pending := if 0 <= idx < o.Count(id) then [(id, idx)] else [];
            && ViewFits(o, Select(v, id))
            && Drain(o, Select(v, id), pending) == (RequestLoaded(o, v, id, idx), [])
  {
    hide Serve, ChunkCount;
    if 0 <= idx < o.Count(id) {
      assert [(id, idx)][1..] == [];
    }
  }
}
