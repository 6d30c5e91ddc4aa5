/**
 The resource-pack half of `NetworkSession`, with the metadata and the file stream of each pack:
 pending queue, per-chunk flags, cursor. Every handler is proved to take the specified step.
 */
module Scheduler {
  import opened Common
  import opened Codec
  import opened ChunkMath
  import opened SchedulerSpec

  /** `ZippedResourcePack`, as far as chunks go: a file and a stream over it with a sticky fail flag. */
  class ResourcePack {
    const packId: Uuid
    const version: Bytes
    const sha256: Bytes
    const content: Bytes
    const subPackName: Bytes
    var position: nat
    var failed: bool

    constructor (packId: Uuid, version: Bytes, sha256: Bytes, content: Bytes, subPackName: Bytes)
      ensures this.packId == packId && this.version == version && this.sha256 == sha256
      ensures this.content == content && this.subPackName == subPackName && !failed
    {
      this.packId, this.version, this.sha256 := packId, version, sha256;
      this.content, this.subPackName := content, subPackName;
      position, failed := 0, false;
    }

    /** Seek, then read; a short read shrinks the buffer and leaves the stream failed for good. */
    method GetPackChunkString(start: int, length: nat) returns (r: Option<Bytes>)
      modifies this
      ensures length == 0 ==> r.None? && failed == old(failed)
      ensures length > 0 && (old(failed) || start < 0) ==> r.None? && failed
      ensures length > 0 && !old(failed) && 0 <= start && start + length <= |content| ==>
                r == Some(content[start..start + length]) && !failed
      ensures length > 0 && !old(failed) && 0 <= start && start + length > |content| ==>
                r == Some(if start <= |content| then content[start..] else []) && failed
    {
      if length < 1 {
        return None;
      }
      if start < 0 {
        failed := true;
      }
      if failed {
        return None;
      }
      position := start;
      var available := if position <= |content| then |content| - position else 0;
      var count := if length <= available then length else available;
      var buffer := if position <= |content| then content[position..position + count] else [];
      position := position + count;
      if count != length {
        failed := true;
      }
      assert position <= |content| && count < length ==> buffer == content[start..];
      return Some(buffer);
    }
  }

  datatype ChunkState = ChunkState(want: bool, sent: bool)

  function SentFlags(chunks: seq<ChunkState>): (r: seq<bool>)
    ensures |r| == |chunks| && forall i :: 0 <= i < |chunks| ==> r[i] == chunks[i].sent
  {
    seq(|chunks|, i requires 0 <= i < |chunks| => chunks[i].sent)
  }

  /** The wanted chunks of a pack are the sent and the pending ones. */
  ghost predicate Wanted(chunks: seq<ChunkState>, id: Uuid, pending: seq<(Uuid, int)>) {
    forall i :: 0 <= i < |chunks| ==> (chunks[i].want <==> chunks[i].sent || (id, i) in pending)
  }

  lemma WantedStep(chunks: seq<ChunkState>, id: Uuid, head: (Uuid, int), rest: seq<(Uuid, int)>)
    requires Wanted(chunks, id, [head] + rest)
    ensures id != head.0 || !(0 <= head.1 < |chunks|) ==> Wanted(chunks, id, rest)
    ensures id == head.0 && 0 <= head.1 < |chunks| ==>
              Wanted(chunks[head.1 := chunks[head.1].(sent := true)], id, rest)
  {
    forall i | 0 <= i < |chunks|
      ensures (id, i) in [head] + rest <==> (id, i) == head || (id, i) in rest
    {}
  }

  /** `next` is the length of the longest prefix of sent chunks. */
  predicate CursorExact(chunks: seq<ChunkState>, next: nat) {
    && next <= |chunks|
    && (forall i :: 0 <= i < next ==> chunks[i].sent)
    && (next < |chunks| ==> !chunks[next].sent)
  }

  ghost predicate AllWanted(packs: map<Uuid, ResourcePackMeta>, pending: seq<(Uuid, int)>)
    reads packs.Values
  {
    forall id :: id in packs ==> Wanted(packs[id].chunks, id, pending)
  }

  class ResourcePackMeta {
    const packId: Uuid
    const pack: ResourcePack
    const maxChunkSize: nat
    const chunkCount: nat
    var chunks: seq<ChunkState>
    var nextToSend: nat

    constructor (id: Uuid, pack: ResourcePack, maxChunk: nat, chunkCount: nat)
      ensures packId == id && this.pack == pack && maxChunkSize == maxChunk && this.chunkCount == chunkCount
      ensures chunks == seq(chunkCount, _ => ChunkState(false, false)) && nextToSend == 0
    {
      packId, this.pack, maxChunkSize, this.chunkCount := id, pack, maxChunk, chunkCount;
      chunks, nextToSend := seq(chunkCount, _ => ChunkState(false, false)), 0;
    }

    predicate Finished()
      reads this
    {
      nextToSend >= chunkCount
    }

    /** The cursor test means what its name says. */
    lemma FinishedMeansAllSent()
      requires |chunks| == chunkCount && CursorExact(chunks, nextToSend)
      ensures Finished() <==> AllSent(SentFlags(chunks))
    {
      FinishedIff(chunks, nextToSend);
    }

    /** Read the bytes of one chunk off the pack's stream: never short, so the stream never fails. */
    method CutChunk(idx: nat) returns (startOffset: nat, chunk: Option<Bytes>)
      requires maxChunkSize > 0 && idx < ChunkCount(|pack.content|, maxChunkSize) && !pack.failed
      modifies pack
      ensures !pack.failed
      ensures startOffset == SliceStart(idx, maxChunkSize)
      ensures chunk == Some(Slice(pack.content, idx, maxChunkSize))
    {
      SliceAt(pack.content, idx, maxChunkSize);
      startOffset := idx * maxChunkSize;
      var rest := |pack.content| - startOffset;
      var chunkSize := if maxChunkSize < rest then maxChunkSize else rest;
      chunk := pack.GetPackChunkString(startOffset, chunkSize);
    }

    /** Flag one chunk and move the cursor past everything sent. */
    method FlagChunk(idx: nat)
      requires |chunks| == chunkCount && idx < chunkCount && CursorExact(chunks, nextToSend)
      modifies this
      ensures |chunks| == chunkCount && CursorExact(chunks, nextToSend)
      ensures chunks == old(chunks)[idx := old(chunks[idx]).(sent := true)]
      ensures SentFlags(chunks) == SentFlags(old(chunks))[idx := true]
    {
      hide CursorExact, SentFlags;
      SentPrefix(chunks, nextToSend, idx);
      MarkFlags(chunks, idx);
      chunks := chunks[idx := chunks[idx].(sent := true)];
      AdvanceCursor();
    }

    /** The inner loop of `processChunkQueue`. */
    method AdvanceCursor()
      requires |chunks| == chunkCount && nextToSend <= chunkCount
      requires forall i :: 0 <= i < nextToSend ==> chunks[i].sent
      modifies this`nextToSend
      ensures CursorExact(chunks, nextToSend)
    {
      while nextToSend < chunkCount && chunks[nextToSend].sent
        invariant nextToSend <= chunkCount
        invariant forall i :: 0 <= i < nextToSend ==> chunks[i].sent
      {
        nextToSend := nextToSend + 1;
      }
    }
  }

  /** The entries of the stack packet. */
  function Stack(packs: seq<ResourcePack>): (r: seq<StackEntry>)
    ensures |r| == |packs|
    ensures forall i :: 0 <= i < |r| ==> r[i] == StackEntry(packs[i].packId, packs[i].version, packs[i].subPackName)
  {
    if packs == [] then []
    else
      var last := packs[|packs| - 1];
      Stack(packs[..|packs| - 1]) + [StackEntry(last.packId, last.version, last.subPackName)]
  }

  class Session {
    const factory: map<Uuid, ResourcePack>   // the factory's index
    const stack: seq<ResourcePack>           // the factory's packs in load order
    const maxChunk: nat
    const force: bool
    const rounding: real -> real             // the platform's double arithmetic

    var loadedPacks: map<Uuid, ResourcePackMeta>
    var packQueue: seq<Uuid>
    var pendingChunks: seq<(Uuid, int)>
    var currentPack: Uuid
    var queueProcessing: bool
    var markedForDisconnect: bool
    var sentPackets: seq<Message>
    ghost var completions: seq<Uuid>         // one entry per call of `nextPack`
    ghost var flags: map<Uuid, seq<bool>>    // the sent flags of the loaded packs
    ghost const offer: Offer                 // what the factory offers

    ghost predicate MetaValid(id: Uuid)
      requires offer.Valid() && id in loadedPacks
      reads this`loadedPacks, this`flags, loadedPacks.Values
    {
      var m := loadedPacks[id];
      && id in factory && id in offer.packs && id in flags
      && m.packId == id && m.pack == factory[id] && m.maxChunkSize == maxChunk
      && m.chunkCount == |m.chunks| == offer.Count(id)
      && flags[id] == SentFlags(m.chunks)
      && CursorExact(m.chunks, m.nextToSend)
    }

    /** The size is exact as a double and the count fits an `int`. */
    predicate SizeFits(content: Bytes) {
      0 < maxChunk < INT_LIMIT && |content| < DOUBLE_PRECISION && ChunkCount(|content|, maxChunk) < INT_LIMIT
    }

    ghost predicate PackValid(id: Uuid)
      requires id in factory
      reads factory.Values
    {
      var p := factory[id];
      && p.packId == id && !p.failed && SizeFits(p.content)
      && id in offer.packs && offer.packs[id] == PackInfo(p.content, p.version, p.sha256)
    }

    ghost predicate Valid()
      reads this`loadedPacks, this`flags, loadedPacks.Values, factory.Values
    {
      && offer.Valid() && offer.maxChunk == maxChunk && offer.force == force && offer.stack == Stack(stack)
      && RoundsToNearest(rounding)
      && offer.packs.Keys == factory.Keys
      && (forall id :: id in factory ==> PackValid(id))
      && flags.Keys == loadedPacks.Keys
      && (forall id :: id in loadedPacks ==> MetaValid(id))
    }

    /** What the specification sees of the state. */
    ghost function View(): (v: View)
      requires Valid()
      reads this`packQueue, this`currentPack, this`sentPackets, this`completions, this`markedForDisconnect
      reads this`loadedPacks, this`flags, loadedPacks.Values, factory.Values
      ensures ViewFits(offer, v) && v.loaded.Keys == loadedPacks.Keys
      ensures v.queue == packQueue && v.current == currentPack && v.trace == sentPackets
      ensures v.completions == completions && v.disconnect == markedForDisconnect
    {
      SchedulerSpec.View(flags, packQueue, currentPack, sentPackets, completions, markedForDisconnect)
    }

    lemma MetaOf(id: Uuid)
      requires Valid() && id in loadedPacks
      ensures MetaValid(id) && id in factory && PackValid(id)
      ensures View().loaded[id] == flags[id]
      ensures offer.maxChunk == maxChunk > 0
      ensures forall x :: x in loadedPacks ==> loadedPacks[x].packId == x
    {
      assert MetaValid(id);
      forall x | x in loadedPacks
        ensures loadedPacks[x].packId == x
      {
        assert MetaValid(x);
      }
    }

    lemma OfferIs()
      requires Valid()
      ensures offer.Valid() && offer.maxChunk == maxChunk && offer.force == force && offer.stack == Stack(stack)
    {}

    lemma OfferOf(id: Uuid)
      requires Valid()
      ensures id in factory <==> id in offer.packs
      ensures id in factory ==> offer.packs[id].content == factory[id].content && SizeFits(factory[id].content)
      ensures RoundsToNearest(rounding)
      ensures offer.Valid() && offer.maxChunk == maxChunk
    {
      if id in factory {
        assert PackValid(id);
      }
    }

    lemma InfoOf(id: Uuid)
      requires Valid() && id in factory
      ensures offer.Valid() && id in offer.packs && offer.maxChunk == maxChunk && factory[id].packId == id
      ensures offer.packs[id] == PackInfo(factory[id].content, factory[id].version, factory[id].sha256)
    {
      assert PackValid(id);
    }

    lemma OffersIndex()
      requires Valid()
      ensures offer.packs.Keys == factory.Keys && offer.stack == Stack(stack)
      ensures offer.maxChunk == maxChunk && offer.force == force
      ensures forall id :: id in factory ==>
                offer.packs[id] == PackInfo(factory[id].content, factory[id].version, factory[id].sha256)
    {
      forall id | id in factory
        ensures offer.packs[id] == PackInfo(factory[id].content, factory[id].version, factory[id].sha256)
      {
        InfoOf(id);
      }
    }

    lemma PackOf(id: Uuid)
      requires Valid() && id in factory
      ensures PackValid(id) && factory[id].packId == id
      ensures offer.Valid() && id in offer.packs && offer.maxChunk == maxChunk
      ensures View().loaded.Keys == loadedPacks.Keys
    {
      assert PackValid(id);
    }

    /** A chunk is wanted iff it has been sent or is pending. */
    ghost predicate WantExact()
      reads this`loadedPacks, this`pendingChunks, loadedPacks.Values
    {
      AllWanted(loadedPacks, pendingChunks)
    }

    /** Between messages: nothing pending, no drain under way, wanted chunks are the sent ones. */
    ghost predicate Quiet()
      requires Valid()
      reads this, loadedPacks.Values, factory.Values
    {
      pendingChunks == [] && !queueProcessing && WantExact()
    }

    constructor (factory: map<Uuid, ResourcePack>, stack: seq<ResourcePack>, maxChunk: nat, force: bool,
                 rounding: real -> real)
      requires 0 < maxChunk < INT_LIMIT && RoundsToNearest(rounding)
      requires forall id :: id in factory ==>
                 && factory[id].packId == id && !factory[id].failed
                 && |factory[id].content| < DOUBLE_PRECISION
                 && ChunkCount(|factory[id].content|, maxChunk) < INT_LIMIT
      ensures this.factory == factory && this.stack == stack && this.maxChunk == maxChunk && this.force == force
      ensures Valid() && Quiet() && View() == INITIAL
    {
      this.factory, this.stack, this.maxChunk, this.force := factory, stack, maxChunk, force;
      this.rounding := rounding;
      offer := Offer(map id | id in factory :: PackInfo(factory[id].content, factory[id].version, factory[id].sha256),
                     Stack(stack), maxChunk, force);
      flags := map[];
      loadedPacks, packQueue, pendingChunks, currentPack := map[], [], [], NIL;
      queueProcessing, markedForDisconnect, sentPackets, completions := false, false, [], [];
    }

    method Send(m: Message)
      requires Valid()
      modifies this`sentPackets
      ensures Valid() && View() == old(View()).(trace := old(View()).trace + [m])
      ensures old(Quiet()) ==> Quiet()
    {
      hide Valid, AllWanted;
      sentPackets := sentPackets + [m];
    }

    /** The effect on the queue and the current pack is the specification's `Advance`. */
    method NextPack(ghost finished: Uuid)
      modifies this`packQueue, this`currentPack, this`completions
      ensures var a := Advance(INITIAL.(queue := old(packQueue), current := old(currentPack)));
              packQueue == a.queue && currentPack == a.current
      ensures completions == old(completions) + [finished]
    {
      completions := completions + [finished];
      if packQueue != [] {
        if packQueue[0] == currentPack {
          packQueue := packQueue[1..];
        } else {
          packQueue := Remove(packQueue, currentPack);
        }
        currentPack := if packQueue == [] then NIL else packQueue[0];
      } else {
        currentPack := NIL;
      }
    }

    /** The body of the drain loop for one in-range entry of a loaded pack. */
    method ServeChunk(packId: Uuid, idx: nat)
      requires Valid() && packId in loadedPacks && idx < offer.Count(packId)
      modifies this`packQueue, this`currentPack, this`completions, this`flags, this`sentPackets
      modifies loadedPacks[packId], factory[packId]
      ensures Valid() && View() == Serve(offer, old(View()), packId, idx)
      ensures var chunks := old(loadedPacks[packId].chunks);
              loadedPacks[packId].chunks == chunks[idx := chunks[idx].(sent := true)]
    {
      hide Slice, SliceStart, ChunkCount, CursorExact, Mark, Valid, PackValid;
      MetaOf(packId);
      var pack := loadedPacks[packId];
      if pack.chunks[idx].sent {
        assert pack.chunks == pack.chunks[idx := pack.chunks[idx].(sent := true)];
        return;
      }
      SendChunk(packId, idx);
      MarkSent(packId, idx);
    }

    /** Cut the chunk and send it; the branch for an empty chunk is never taken. */
    method SendChunk(packId: Uuid, idx: nat)
      requires Valid() && packId in loadedPacks && idx < offer.Count(packId)
      modifies this`sentPackets, factory[packId]
      ensures Valid()
      ensures View() == old(View()).(trace := old(View()).trace + [offer.Chunk(packId, idx)])
    {
      hide Slice, SliceLength, SliceStart, ChunkCount, CursorExact, RoundsToNearest;
      MetaOf(packId);
      var pack := loadedPacks[packId];
      var startOffset, chunk := pack.CutChunk(idx);
      if chunk.None? || chunk.value == [] {
        assert false;
      }
      Send(ChunkData(pack.packId, pack.pack.version, idx, startOffset, chunk.value));
      forall x | x in loadedPacks
        ensures MetaValid(x)
      {
        assert old(MetaValid(x));
      }
    }

    /** The same for a loaded pack, with what it does to the session. */
    method FlagSent(packId: Uuid, idx: nat)
      requires Valid() && packId in loadedPacks && idx < offer.Count(packId)
      modifies this`flags, loadedPacks[packId]
      ensures Valid()
      ensures View() == old(View()).(loaded := old(View()).loaded[packId := old(View()).loaded[packId][idx := true]])
      ensures var chunks := old(loadedPacks[packId].chunks);
              loadedPacks[packId].chunks == chunks[idx := chunks[idx].(sent := true)]
    {
      hide ChunkCount, CursorExact, SentFlags, PackValid;
      MetaOf(packId);
      loadedPacks[packId].FlagChunk(idx);
      flags := flags[packId := flags[packId][idx := true]];
      forall x | x in loadedPacks
        ensures MetaValid(x)
      {
        assert old(MetaValid(x));
      }
    }

    /** The rest of the body once the packet is out: flag, cursor, and the next pack if this one is done. */
    method MarkSent(packId: Uuid, idx: nat)
      requires Valid() && packId in loadedPacks && idx < offer.Count(packId)
      modifies this`packQueue, this`currentPack, this`completions, this`flags, loadedPacks[packId]
      ensures Valid() && View() == Mark(old(View()), packId, idx)
      ensures var chunks := old(loadedPacks[packId].chunks);
              loadedPacks[packId].chunks == chunks[idx := chunks[idx].(sent := true)]
    {
      hide ChunkCount, CursorExact, Advance, AllSent, Valid;
      FlagSent(packId, idx);
      MetaOf(packId);
      var pack := loadedPacks[packId];
      FinishedIff(pack.chunks, pack.nextToSend);
      if pack.nextToSend >= pack.chunkCount {
        ghost var marked := View();
        AdvanceLocal(marked.(completions := marked.completions + [packId]));
        NextPack(packId);
      }
    }

    /**
     `processChunkQueue` on any queue of pending requests: the queue is drained as specified, and a
     drain already under way makes the call do nothing.
     */
    method ProcessChunkQueue()
      requires Valid()
      modifies this, loadedPacks.Values, factory.Values
      ensures loadedPacks == old(loadedPacks) && Valid()
      ensures old(queueProcessing) ==>
                queueProcessing && View() == old(View()) && pendingChunks == old(pendingChunks)
      ensures !old(queueProcessing) ==>
                !queueProcessing && (View(), pendingChunks) == Drain(offer, old(View()), old(pendingChunks))
      ensures !old(queueProcessing) && old(WantExact()) ==> WantExact()
    {
      hide *;
      if queueProcessing {
        return;
      }
      queueProcessing := true;
      DrainAll();
      queueProcessing := false;
    }

    /** The drain loop. */
    method DrainAll()
      requires Valid()
      modifies this, loadedPacks.Values, factory.Values
      ensures loadedPacks == old(loadedPacks) && Valid()
      ensures (View(), pendingChunks) == Drain(offer, old(View()), old(pendingChunks))
      ensures old(WantExact()) ==> WantExact()
    {
      hide *;
      ghost var drained := Drain(offer, View(), pendingChunks);
      while pendingChunks != []
        invariant loadedPacks == old(loadedPacks) && Valid()
        invariant Drain(offer, View(), pendingChunks) == drained
        invariant old(WantExact()) ==> WantExact()
        decreases |pendingChunks|
      {
        var goOn := DrainOne();
        if !goOn {
          return;
        }
      }
      DrainNothing(offer, View());
    }

    /** One turn of the drain loop; `false` when it ends in the disconnect branch. */
    method DrainOne() returns (goOn: bool)
      requires Valid() && pendingChunks != []
      modifies this, loadedPacks.Values, factory.Values
      ensures loadedPacks == old(loadedPacks) && Valid()
      ensures pendingChunks == old(pendingChunks)[1..] && (goOn || !queueProcessing)
      ensures Drain(offer, old(View()), old(pendingChunks)) ==
              if goOn then Drain(offer, View(), pendingChunks) else (View(), pendingChunks)
      ensures old(WantExact()) ==> WantExact()
    {
      hide Drain, Serve, ChunkCount, View, WantExact, Valid;
      DrainUnfolds(offer, View(), pendingChunks);
      var (packId, idx) := pendingChunks[0];
      goOn := true;
      if packId !in loadedPacks {
        Skip();
      } else {
        MetaOf(packId);
        if idx < 0 || idx >= loadedPacks[packId].chunkCount {
          Skip();
          Stop();
          goOn := false;
        } else {
          ServeHead(packId, idx);
        }
      }
    }

    /** Drop an entry that no loaded chunk answers to. */
    method Skip()
      requires Valid() && pendingChunks != []
      requires var (id, idx) := pendingChunks[0]; id in loadedPacks ==> !(0 <= idx < loadedPacks[id].chunkCount)
      modifies this`pendingChunks
      ensures Valid() && View() == old(View()) && pendingChunks == old(pendingChunks)[1..]
      ensures old(WantExact()) ==> WantExact()
    {
      hide Wanted, CursorExact, ChunkCount, PackValid;
      ghost var pending, head := pendingChunks, pendingChunks[0];
      pendingChunks := pendingChunks[1..];
      assert pending == [head] + pendingChunks;
      if old(WantExact()) {
        forall id | id in loadedPacks
          ensures Wanted(loadedPacks[id].chunks, id, pendingChunks)
        {
          assert old(Wanted(loadedPacks[id].chunks, id, pending));
          assert MetaValid(id);
          WantedStep(loadedPacks[id].chunks, id, head, pendingChunks);
        }
      }
    }

    /** The disconnect branch for an index out of range. */
    method Stop()
      requires Valid()
      modifies this`markedForDisconnect, this`queueProcessing
      ensures Valid() && !queueProcessing && View() == old(View()).(disconnect := true)
      ensures old(WantExact()) ==> WantExact()
    {
      hide Valid;
      markedForDisconnect := true;
      queueProcessing := false;
    }

    /** Take the first entry and serve it. */
    method ServeHead(packId: Uuid, idx: nat)
      requires Valid() && pendingChunks != [] && pendingChunks[0] == (packId, idx)
      requires packId in loadedPacks && idx < offer.Count(packId)
      modifies this, loadedPacks.Values, factory.Values
      ensures loadedPacks == old(loadedPacks) && Valid()
      ensures pendingChunks == old(pendingChunks)[1..]
      ensures View() == Serve(offer, old(View()), packId, idx)
      ensures old(WantExact()) ==> WantExact()
    {
      hide Serve, ChunkCount, Valid, Wanted;
      MetaOf(packId);
      ghost var pending := pendingChunks;
      pendingChunks := pendingChunks[1..];
      ServeChunk(packId, idx);
      assert pending == [(packId, idx)] + pendingChunks;
      if old(WantExact()) {
        forall id | id in loadedPacks
          ensures Wanted(loadedPacks[id].chunks, id, pendingChunks)
        {
          assert old(Wanted(loadedPacks[id].chunks, id, pending));
          WantedStep(old(loadedPacks[id].chunks), id, (packId, idx), pendingChunks);
        }
      }
    }

    /** `emplace`: a pack that is already loaded keeps its metadata, and so its sent flags. */
    method LoadPack(id: Uuid, chunkCount: nat)
      requires Valid() && id in factory && chunkCount == offer.Count(id)
      modifies this`loadedPacks, this`flags
      ensures Valid() && View() == Load(offer, old(View()), id)
      ensures loadedPacks.Keys == old(loadedPacks).Keys + {id}
      ensures forall x :: x in old(loadedPacks) ==> loadedPacks[x] == old(loadedPacks)[x]
      ensures id !in old(loadedPacks) ==> fresh(loadedPacks[id])
      ensures old(Quiet()) ==> Quiet()
    {
      hide ChunkCount, Valid, View, Load, AllWanted;
      PackOf(id);
      var data := new ResourcePackMeta(factory[id].packId, factory[id], maxChunk, chunkCount);
      if data.packId !in loadedPacks {
        Insert(data, id);
        NewWanted(old(loadedPacks), id, data);
      } else {
        LoadAgain(offer, old(View()), id);
      }
    }

    lemma NewWanted(before: map<Uuid, ResourcePackMeta>, id: Uuid, data: ResourcePackMeta)
      requires loadedPacks == before[id := data]
      requires data.chunks == seq(data.chunkCount, _ => ChunkState(false, false))
      ensures pendingChunks == [] && AllWanted(before, []) ==> WantExact()
    {
      FreshWanted(data.chunks, id, data.chunkCount);
    }

    method Insert(data: ResourcePackMeta, id: Uuid)
      requires Valid() && id in factory && id !in loadedPacks
      requires data.packId == id && data.pack == factory[id] && data.maxChunkSize == maxChunk
      requires offer.Valid() && id in offer.packs && data.chunkCount == offer.Count(id)
      requires data.chunks == seq(data.chunkCount, _ => ChunkState(false, false)) && data.nextToSend == 0
      modifies this`loadedPacks, this`flags
      ensures loadedPacks == old(loadedPacks)[id := data]
      ensures Valid() && View() == Load(offer, old(View()), id)
    {
      hide ChunkCount, PackValid, CursorExact, SentFlags, AllSent, RoundsToNearest, Stack;
      loadedPacks := loadedPacks[id := data];
      flags := flags[id := seq(data.chunkCount, _ => false)];
      AllUnsent(data.chunks, data.chunkCount);
      forall x | x in loadedPacks
        ensures MetaValid(x)
      {
        assert x != id ==> old(MetaValid(x));
      }
    }

    /** Note that a chunk is wanted and queue the request. */
    method WantChunk(packId: Uuid, idx: nat)
      requires Valid() && WantExact() && packId in loadedPacks && idx < offer.Count(packId)
      modifies this`pendingChunks, loadedPacks[packId]
      ensures Valid() && WantExact() && View() == old(View())
      ensures pendingChunks == old(pendingChunks) + [(packId, idx)]
    {
      hide ChunkCount, Wanted, Valid, View;
      MetaOf(packId);
      FlagWanted(packId, idx);
      pendingChunks := pendingChunks + [(loadedPacks[packId].packId, idx)];
      forall id | id in loadedPacks
        ensures Wanted(loadedPacks[id].chunks, id, pendingChunks)
      {
        assert old(Wanted(loadedPacks[id].chunks, id, pendingChunks));
        WantedSnoc(old(loadedPacks[id].chunks), id, old(pendingChunks), (packId, idx));
      }
    }

    method FlagWanted(packId: Uuid, idx: nat)
      requires Valid() && packId in loadedPacks && idx < offer.Count(packId)
      modifies loadedPacks[packId]
      ensures Valid() && View() == old(View())
      ensures var chunks := old(loadedPacks[packId].chunks);
              idx < |chunks| && loadedPacks[packId].chunks == chunks[idx := chunks[idx].(want := true)]
    {
      hide ChunkCount, CursorExact, PackValid;
      MetaOf(packId);
      var packInfo := loadedPacks[packId];
      WantKeepsSent(packInfo.chunks, packInfo.nextToSend, idx);
      packInfo.chunks := packInfo.chunks[idx := packInfo.chunks[idx].(want := true)];
      forall x | x in loadedPacks
        ensures MetaValid(x)
      {
        assert old(MetaValid(x));
      }
    }

    /** The requested pack becomes current if none is, and is queued if it is not. */
    method SelectPack(packId: Uuid)
      requires Valid()
      modifies this`packQueue, this`currentPack
      ensures Valid() && View() == Select(old(View()), packId)
      ensures old(WantExact()) ==> WantExact()
    {
      hide Valid, Wanted;
      if currentPack == NIL {
        currentPack := packId;
        if packId !in packQueue {
          packQueue := packQueue + [packId];
        }
      } else if packId !in packQueue {
        packQueue := packQueue + [packId];
      }
    }

    /** `handleResourcePackChunkRequest` once the pack is loaded. */
    method RequestLoaded(packId: Uuid, chunkIndex: int)
      requires Valid() && Quiet() && packId in loadedPacks
      modifies this, loadedPacks.Values, factory.Values
      ensures loadedPacks == old(loadedPacks) && Valid() && Quiet()
      ensures View() == SchedulerSpec.RequestLoaded(offer, old(View()), packId, chunkIndex)
    {
      hide Drain, ChunkCount, Select, WantExact, View, Valid, SchedulerSpec.RequestLoaded;
      RequestByDrain(offer, View(), packId, chunkIndex);
      MetaOf(packId);
      if chunkIndex >= 0 && chunkIndex < loadedPacks[packId].chunkCount {
        WantChunk(packId, chunkIndex);
        assert pendingChunks == [(packId, chunkIndex)];
      }
      SelectPack(packId);
      ProcessChunkQueue();
    }

    /** `handleResourcePackChunkRequest`: any pack id and any index. */
    method HandleChunkRequest(packId: Uuid, chunkIndex: int)
      requires Valid() && Quiet()
      modifies this, loadedPacks.Values, factory.Values
      ensures Valid() && Quiet()
      ensures forall x :: x in loadedPacks ==> loadedPacks[x] in old(loadedPacks).Values || fresh(loadedPacks[x])
      ensures View() == Request(offer, old(View()), packId, chunkIndex)
    {
      hide SchedulerSpec.RequestLoaded, ChunkCount, Load, Quiet, WantExact, View, Valid;
      OfferOf(packId);
      var known := FindPack(packId);
      if !known {
        return;
      }
      RequestLoaded(packId, chunkIndex);
    }

    /** The first half of the handler: find the loaded pack, or load a pack the factory knows. */
    method FindPack(packId: Uuid) returns (known: bool)
      requires Valid() && Quiet()
      modifies this`loadedPacks, this`flags, this`markedForDisconnect
      ensures Valid() && Quiet()
      ensures known <==> packId in offer.packs
      ensures known ==> packId in loadedPacks && View() == Load(offer, old(View()), packId)
      ensures !known ==> View() == old(View()).(disconnect := true)
      ensures forall x :: x in loadedPacks ==> loadedPacks[x] in old(loadedPacks).Values || fresh(loadedPacks[x])
    {
      hide ChunkCount, Load, Quiet, View, Valid;
      OfferOf(packId);
      known := true;
      if packId in loadedPacks {
        MetaOf(packId);
        LoadAgain(offer, View(), packId);
      } else if packId !in factory {
        Disconnect();
        known := false;
      } else {
        var totalChunks := ServedCount(|factory[packId].content|);
        LoadPack(packId, totalChunks);
      }
    }

    /** One entry of SendPacks: queue the pack, load it unless loaded, announce it. */
    method AnnouncePack(id: Uuid)
      requires Valid() && Quiet() && id in factory
      modifies this
      ensures Valid() && Quiet()
      ensures forall x :: x in old(loadedPacks) ==> x in loadedPacks && loadedPacks[x] == old(loadedPacks)[x]
      ensures forall x :: x in loadedPacks && x !in old(loadedPacks) ==> fresh(loadedPacks[x])
      ensures View() == Announce(offer, old(View()), id)
    {
      hide *;
      var resourcePack := factory[id];
      var chunkCount := AnnouncedCount(id);
      ghost var before := View();
      Enqueue(id);
      LoadPack(id, chunkCount);
      var dataInfo := DataInfo(resourcePack.packId, resourcePack.version, maxChunk, chunkCount,
                               |resourcePack.content|, resourcePack.sha256);
      InfoOf(id);
      LoadThenTell(offer, before, id, dataInfo);
      Send(dataInfo);
    }

    /** The HaveAllPacks branch: the stack, entry by entry. */
    method SendStack()
      requires Valid()
      modifies this`sentPackets
      ensures Valid() && (old(Quiet()) ==> Quiet())
      ensures View() == old(View()).(trace := old(View()).trace + [PackStack(offer.force, offer.stack, BASE_VERSION)])
    {
      hide Valid, Quiet, View;
      OfferIs();
      var entries: seq<StackEntry> := [];
      for i := 0 to |stack|
        invariant entries == Stack(stack[..i])
      {
        var def := stack[i];
        assert stack[..i + 1][..i] == stack[..i];
        entries := entries + [StackEntry(def.packId, def.version, def.subPackName)];
      }
      assert stack[..|stack|] == stack;
      Send(PackStack(force, entries, BASE_VERSION));
    }

    /** The SendPacks branch: an unknown pack stops the list and disconnects. */
    method AnnouncePacks(ids: seq<Uuid>)
      requires Valid() && Quiet()
      modifies this
      ensures Valid() && Quiet()
      ensures forall x :: x in loadedPacks ==> loadedPacks[x] in old(loadedPacks).Values || fresh(loadedPacks[x])
      ensures View() == AnnounceAll(offer, old(View()), ids)
    {
      hide Quiet, Valid, View, Announce;
      OfferIs();
      ghost var announced := AnnounceAll(offer, View(), ids);
      for i := 0 to |ids|
        invariant Valid() && Quiet()
        invariant forall x :: x in loadedPacks ==> loadedPacks[x] in old(loadedPacks).Values || fresh(loadedPacks[x])
        invariant AnnounceAll(offer, View(), ids[i..]) == announced
      {
        OfferOf(ids[i]);
        assert ids[i..][0] == ids[i] && ids[i..][1..] == ids[i + 1..];
        if ids[i] !in factory {
          Disconnect();
          return;
        }
        AnnouncePack(ids[i]);
      }
    }

    /** `handleResourcePackClientResponse`. */
    method HandleClientResponse(e: Event)
      requires Valid() && Quiet() && !e.ChunkRequest?
      modifies this
      ensures Valid() && Quiet()
      ensures forall x :: x in loadedPacks ==> loadedPacks[x] in old(loadedPacks).Values || fresh(loadedPacks[x])
      ensures View() == Step(offer, old(View()), e)
    {
      hide Quiet, Valid, View, AnnounceAll;
      OfferIs();
      match e
      case Refused =>
        if force {
          Disconnect();
        }
      case SendPacks(ids) => AnnouncePacks(ids);
      case HaveAllPacks => SendStack();
      case Completed =>
    }

    /** Any message of the client: the concrete session takes the specified step. */
    method Handle(e: Event)
      requires Valid() && Quiet()
      modifies this, loadedPacks.Values, factory.Values
      ensures Valid() && Quiet()
      ensures forall x :: x in loadedPacks ==> loadedPacks[x] in old(loadedPacks).Values || fresh(loadedPacks[x])
      ensures View() == Step(offer, old(View()), e)
    {
      hide WantExact, Valid, Request, AnnounceAll;
      if e.ChunkRequest? {
        HandleChunkRequest(e.id, e.idx);
      } else {
        HandleClientResponse(e);
      }
    }

    /** A whole session: from a new one, the messages of a client in order reach the specified state. */
    method HandleAll(events: seq<Event>)
      requires Valid() && Quiet() && View() == INITIAL
      modifies this, loadedPacks.Values, factory.Values
      ensures Valid() && Quiet() && View() == Run(offer, events)
    {
      hide Step, Quiet, View, Valid;
      OfferIs();
      assert events[..0] == [];
      for i := 0 to |events|
        invariant Valid() && Quiet() && offer.Valid()
        invariant forall x :: x in loadedPacks ==> loadedPacks[x] in old(loadedPacks).Values || fresh(loadedPacks[x])
        invariant View() == Run(offer, events[..i])
      {
        assert events[..i + 1][..i] == events[..i];
        Handle(events[i]);
      }
      assert events[..|events|] == events;
    }

    method Enqueue(id: Uuid)
      requires Valid()
      modifies this`packQueue
      ensures Valid() && View() == old(View()).(queue := old(View()).queue + [id])
      ensures old(Quiet()) ==> Quiet()
    {
      hide Valid, AllWanted;
      packQueue := packQueue + [id];
    }

    /** `std::ceil(static_cast<double>(size) / maxChunkSize)`. */
    method AnnouncedCount(id: Uuid) returns (n: int)
      requires Valid() && id in factory
      ensures offer.Valid() && id in offer.packs && n == offer.Count(id)
    {
      hide ChunkCount, Valid, Ceil, RoundsToNearest, AdvertisedCount;
      OfferOf(id);
      n := AdvertisedCount(rounding, |factory[id].content|, maxChunk);
      AdvertisedIsServed(rounding, |factory[id].content|, maxChunk);
    }

    /** `(size + maxSize - 1) / maxSize`. */
    method ServedCount(size: nat) returns (n: nat)
      requires maxChunk > 0
      ensures n == ChunkCount(size, maxChunk)
    {
      n := (size + maxChunk - 1) / maxChunk;
    }

    method Disconnect()
      requires Valid()
      modifies this`markedForDisconnect
      ensures Valid() && View() == old(View()).(disconnect := true)
      ensures old(Quiet()) ==> Quiet()
    {
      hide Valid, AllWanted;
      markedForDisconnect := true;
    }
  }

  lemma DrainNothing(o: Offer, v: View)
    requires ViewFits(o, v)
    ensures Drain(o, v, []) == (v, [])
  {}

  lemma DrainUnfolds(o: Offer, v: View, pending: seq<(Uuid, int)>)
    requires ViewFits(o, v) && pending != []
    ensures var (id, idx) := pending[0];
            Drain(o, v, pending) ==
            if id !in v.loaded then Drain(o, v, pending[1..])
            else if 0 <= idx < o.Count(id) then Drain(o, Serve(o, v, id, idx), pending[1..])
            else (v.(disconnect := true), pending[1..])
  {
    hide Serve, ChunkCount;
  }

  /** Loading a pack and telling the client about it do not disturb each other. */
  lemma LoadThenTell(o: Offer, v: View, id: Uuid, info: Message)
    requires o.Valid() && id in o.packs
    requires var p := o.packs[id]; info == DataInfo(id, p.version, o.maxChunk, o.Count(id), |p.content|, p.sha256)
    ensures var loaded := Load(o, v.(queue := v.queue + [id]), id);
            Announce(o, v, id) == loaded.(trace := loaded.trace + [info])
  {
    hide ChunkCount;
  }

  lemma LoadAgain(o: Offer, v: View, id: Uuid)
    requires ViewFits(o, v) && id in v.loaded
    ensures Load(o, v, id) == v
  {}

  lemma WantKeepsSent(chunks: seq<ChunkState>, next: nat, idx: nat)
    requires CursorExact(chunks, next) && idx < |chunks|
    ensures var wanted := chunks[idx := chunks[idx].(want := true)];
            CursorExact(wanted, next) && SentFlags(wanted) == SentFlags(chunks)
  {}

  lemma WantedSnoc(chunks: seq<ChunkState>, id: Uuid, pending: seq<(Uuid, int)>, last: (Uuid, int))
    requires Wanted(chunks, id, pending)
    ensures id != last.0 ==> Wanted(chunks, id, pending + [last])
    ensures id == last.0 && 0 <= last.1 < |chunks| ==>
              Wanted(chunks[last.1 := chunks[last.1].(want := true)], id, pending + [last])
  {
    forall i | 0 <= i < |chunks|
      ensures (id, i) in pending + [last] <==> (id, i) in pending || (id, i) == last
    {}
  }

  lemma FreshWanted(chunks: seq<ChunkState>, id: Uuid, n: nat)
    requires chunks == seq(n, _ => ChunkState(false, false))
    ensures Wanted(chunks, id, [])
  {}

  lemma AllUnsent(chunks: seq<ChunkState>, n: nat)
    requires chunks == seq(n, _ => ChunkState(false, false))
    ensures SentFlags(chunks) == seq(n, _ => false)
    ensures CursorExact(chunks, 0)
  {}

  /** `Advance` looks at the queue and the current pack, and changes nothing else. */
  lemma AdvanceLocal(v: View)
    ensures var a := Advance(INITIAL.(queue := v.queue, current := v.current));
            Advance(v) == v.(queue := a.queue, current := a.current)
  {}

  lemma SliceAt(content: Bytes, idx: nat, max: nat)
    requires max > 0 && idx < ChunkCount(|content|, max)
    ensures var start := idx * max;
            var rest := |content| - start;
            var size := if max < rest then max else rest;
            && start == SliceStart(idx, max)
            && size >= 1 && start + size <= |content|
            && Slice(content, idx, max) == content[start..start + size]
  {
    SliceInside(|content|, idx, max);
  }

  lemma MarkFlags(chunks: seq<ChunkState>, idx: nat)
    requires idx < |chunks|
    ensures SentFlags(chunks[idx := chunks[idx].(sent := true)]) == SentFlags(chunks)[idx := true]
  {}

  lemma SentPrefix(chunks: seq<ChunkState>, next: nat, idx: nat)
    requires CursorExact(chunks, next) && idx < |chunks|
    ensures next <= |chunks|
    ensures var marked := chunks[idx := chunks[idx].(sent := true)];
            forall i :: 0 <= i < next ==> marked[i].sent
  {}

  lemma FinishedIff(chunks: seq<ChunkState>, next: nat)
    requires CursorExact(chunks, next)
    ensures next >= |chunks| <==> AllSent(SentFlags(chunks))
  {
    if next < |chunks| {
      assert !SentFlags(chunks)[next];
    }
  }
}
