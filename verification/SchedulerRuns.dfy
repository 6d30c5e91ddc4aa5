/** What holds after every sequence of client messages. */
module SchedulerRuns {
  import opened Common
  import opened Codec
  import opened ChunkMath
  import opened SchedulerSpec

  type Key = (Uuid, nat)

  /** The requests the server can serve, in the order they came, repeats included. */
  function ValidRequests(o: Offer, events: seq<Event>): (r: seq<Key>)
    requires o.Valid()
    ensures forall k :: k in r ==> o.Serves(k.0, k.1)
  {
    if events == [] then []
    else
      var before := ValidRequests(o, events[..|events| - 1]);
      match events[|events| - 1]
      case ChunkRequest(id, idx) => if o.Serves(id, idx) then before + [(id, idx)] else before
      case _ => before
  }

  /** First occurrences, in order. */
  function Firsts(s: seq<Key>): (r: seq<Key>)
    ensures forall k :: k in r <==> k in s
    ensures forall i, j :: 0 <= i < j < |r| ==> r[i] != r[j]
  {
    if s == [] then []
    else
      var before, last := s[..|s| - 1], s[|s| - 1];
      assert s == before + [last];
      if last in before then Firsts(before) else Firsts(before) + [last]
  }

  function ChunksFor(o: Offer, keys: seq<Key>): (r: seq<Message>)
    requires o.Valid() && forall k :: k in keys ==> o.Serves(k.0, k.1)
    ensures |r| == |keys|
    ensures forall i :: 0 <= i < |keys| ==> r[i] == o.Chunk(keys[i].0, keys[i].1)
  {
    if keys == [] then []
    else ChunksFor(o, keys[..|keys| - 1]) + [o.Chunk(keys[|keys| - 1].0, keys[|keys| - 1].1)]
  }

  /** The chunks among the packets sent. */
  function Chunks(trace: seq<Message>): (r: seq<Message>)
    ensures forall m :: m in r <==> m in trace && m.ChunkData?
  {
    if trace == [] then []
    else
      var before, last := Chunks(trace[..|trace| - 1]), trace[|trace| - 1];
      assert trace == trace[..|trace| - 1] + [last];
      if last.ChunkData? then before + [last] else before
  }

  lemma ChunksSnoc(trace: seq<Message>, m: Message)
    ensures Chunks(trace + [m]) == if m.ChunkData? then Chunks(trace) + [m] else Chunks(trace)
  {
    assert (trace + [m])[..|trace|] == trace;
  }

  /** The keys `done` are exactly the chunks marked as sent. */
  ghost predicate Marks(o: Offer, v: View, done: seq<Key>)
    requires ViewFits(o, v)
  {
    && (forall k :: k in done ==> k.0 in v.loaded)
    && forall id, i :: id in v.loaded && 0 <= i < |v.loaded[id]| ==> (v.loaded[id][i] <==> (id, i) in done)
  }

  lemma {:induction false} AnnounceAllKeeps(o: Offer, v: View, ids: seq<Uuid>, done: seq<Key>)
    requires ViewFits(o, v) && Marks(o, v, done)
    ensures ViewFits(o, AnnounceAll(o, v, ids)) && Marks(o, AnnounceAll(o, v, ids), done)
    ensures Chunks(AnnounceAll(o, v, ids).trace) == Chunks(v.trace)
    ensures AnnounceAll(o, v, ids).completions == v.completions
    decreases |ids|
  {
    if ids != [] && ids[0] in o.packs {
      var v' := Announce(o, v, ids[0]);
      ChunksSnoc(v.trace, v'.trace[|v.trace|]);
      AnnounceAllKeeps(o, v', ids[1..], done);
    }
  }

  /** Setting one flag marks one more key. */
  lemma FlagMarks(o: Offer, v: View, id: Uuid, idx: nat, done: seq<Key>)
    requires ViewFits(o, v) && id in v.loaded && idx < o.Count(id) && Marks(o, v, done)
    ensures var v' := v.(loaded := v.loaded[id := v.loaded[id][idx := true]]);
            ViewFits(o, v') && Marks(o, v', done + [(id, idx)])
  {
    hide ChunkCount;
  }

  lemma MarksAgain(o: Offer, v: View, k: Key, done: seq<Key>)
    requires ViewFits(o, v) && Marks(o, v, done) && k in done
    ensures Marks(o, v, done + [k])
  {}

  lemma MarkEffects(v: View, id: Uuid, idx: nat)
    requires id in v.loaded && idx < |v.loaded[id]|
    ensures Mark(v, id, idx).loaded == v.loaded[id := v.loaded[id][idx := true]]
    ensures Mark(v, id, idx).trace == v.trace
  {
    hide Remove, AllSent;
  }

  lemma MarksSame(o: Offer, v: View, v': View, done: seq<Key>)
    requires ViewFits(o, v) && ViewFits(o, v') && v.loaded == v'.loaded
    ensures Marks(o, v, done) ==> Marks(o, v', done)
  {}

  lemma ServeMarks(o: Offer, v: View, id: Uuid, idx: nat, done: seq<Key>)
    requires ViewFits(o, v) && id in v.loaded && idx < o.Count(id)
    requires Marks(o, v, done)
    ensures Marks(o, Serve(o, v, id, idx), done + [(id, idx)])
    ensures Chunks(Serve(o, v, id, idx).trace) ==
            if (id, idx) in done then Chunks(v.trace) else Chunks(v.trace) + [o.Chunk(id, idx)]
  {
    assert v.loaded[id][idx] <==> (id, idx) in done;
    hide Slice, SliceStart, ChunkCount, Marks, Mark, Chunks;
    if v.loaded[id][idx] {
      MarksAgain(o, v, (id, idx), done);
    } else {
      var sent := v.(trace := v.trace + [o.Chunk(id, idx)]);
      MarkEffects(sent, id, idx);
      FlagMarks(o, v, id, idx, done);
      MarksSame(o, v.(loaded := v.loaded[id := v.loaded[id][idx := true]]), Mark(sent, id, idx), done + [(id, idx)]);
      ChunksSnoc(v.trace, o.Chunk(id, idx));
    }
  }

  /** A served request marks its chunk and sends it unless it was marked. */
  lemma RequestMarks(o: Offer, v: View, id: Uuid, idx: int, done: seq<Key>)
    requires ViewFits(o, v) && Marks(o, v, done)
    ensures var v' := Request(o, v, id, idx);
            if !o.Serves(id, idx) then Marks(o, v', done) && Chunks(v'.trace) == Chunks(v.trace)
            else
              && Marks(o, v', done + [(id, idx)])
              && Chunks(v'.trace) == if (id, idx) in done then Chunks(v.trace) else Chunks(v.trace) + [o.Chunk(id, idx)]
  {
    hide Serve;
    if id in o.packs {
      var ready := Select(Load(o, v, id), id);
      assert Marks(o, ready, done) by { LoadMarks(o, v, id, done); }
      if 0 <= idx < o.Count(id) {
        ServeMarks(o, ready, id, idx, done);
      }
    }
  }

  lemma LoadMarks(o: Offer, v: View, id: Uuid, done: seq<Key>)
    requires ViewFits(o, v) && id in o.packs && Marks(o, v, done)
    ensures Marks(o, Load(o, v, id), done)
  {}

  lemma FirstsSnoc(o: Offer, s: seq<Key>, k: Key)
    requires o.Valid() && o.Serves(k.0, k.1) && forall x :: x in s ==> o.Serves(x.0, x.1)
    ensures forall x :: x in s + [k] ==> o.Serves(x.0, x.1)
    ensures ChunksFor(o, Firsts(s + [k])) ==
            if k in s then ChunksFor(o, Firsts(s)) else ChunksFor(o, Firsts(s)) + [o.Chunk(k.0, k.1)]
  {
    hide Slice, SliceStart;
    assert (s + [k])[..|s|] == s;
    var f := Firsts(s);
    assert (f + [k])[..|f|] == f;
  }

  /**
   Refinement: the chunks sent are the first occurrences of the valid requests, in request order,
   so no chunk is ever sent twice, whatever else the client sends in between.
   */
  lemma {:induction false} TraceIsFirstRequests(o: Offer, events: seq<Event>)
    requires o.Valid()
    ensures Marks(o, Run(o, events), ValidRequests(o, events))
    ensures Chunks(Run(o, events).trace) == ChunksFor(o, Firsts(ValidRequests(o, events)))
  {
    hide Request, AnnounceAll, Firsts, ChunksFor, Chunks;
    if events == [] {
      EmptyRun(o);
    } else {
      var before, e := events[..|events| - 1], events[|events| - 1];
      TraceIsFirstRequests(o, before);
      var v, done := Run(o, before), ValidRequests(o, before);
      match e
      case SendPacks(ids) =>
        AnnounceAllKeeps(o, v, ids, done);
      case ChunkRequest(id, idx) =>
        RequestMarks(o, v, id, idx, done);
        if o.Serves(id, idx) {
          FirstsSnoc(o, done, (id, idx));
        }
      case HaveAllPacks =>
        ChunksSnoc(v.trace, PackStack(o.force, o.stack, BASE_VERSION));
      case Refused =>
      case Completed =>
    }
  }

  // ----- Any pending queue -----

  /** The entries a drain serves: the loaded ones before the first index out of range. */
  function Reached(o: Offer, loaded: set<Uuid>, pending: seq<(Uuid, int)>): (r: seq<Key>)
    requires o.Valid() && loaded <= o.packs.Keys
    ensures forall k :: k in r ==> o.Serves(k.0, k.1)
  {
    if pending == [] then []
    else
      var (id, idx) := pending[0];
      if id !in loaded then Reached(o, loaded, pending[1..])
      else if 0 <= idx < o.Count(id) then [(id, idx)] + Reached(o, loaded, pending[1..])
      else []
  }

  /** Of a queue whose entries are all loaded and in range, every entry is reached. */
  lemma {:induction false} AllReached(o: Offer, v: View, pending: seq<(Uuid, int)>)
    requires ViewFits(o, v) && InRange(o, v, pending)
    ensures var r := Reached(o, v.loaded.Keys, pending);
            |r| == |pending| && forall i :: 0 <= i < |r| ==> (r[i].0, r[i].1 as int) == pending[i]
  {
    hide ChunkCount;
    if pending != [] {
      assert pending[0] in pending;
      AllReached(o, v, pending[1..]);
    }
  }

  /**
   The drain loop on a queue of any length and content: it sends the first occurrences among what
   was sent before and the entries it reaches, and marks exactly those.
   */
  lemma {:induction false} DrainIsFirstRequests(o: Offer, v: View, pending: seq<(Uuid, int)>, done: seq<Key>)
    requires ViewFits(o, v) && Marks(o, v, done) && forall k :: k in done ==> o.Serves(k.0, k.1)
    requires Chunks(v.trace) == ChunksFor(o, Firsts(done))
    ensures var v' := Drain(o, v, pending).0;
            var all := done + Reached(o, v.loaded.Keys, pending);
            && Marks(o, v', all)
            && Chunks(v'.trace) == ChunksFor(o, Firsts(all))
    decreases |pending|
  {
    hide Serve, ChunkCount, Marks, Firsts, ChunksFor, Chunks;
    if pending == [] {
      assert done + [] == done;
    } else {
      var (id, idx) := pending[0];
      if id !in v.loaded {
        DrainIsFirstRequests(o, v, pending[1..], done);
      } else if 0 <= idx < o.Count(id) {
        ServeKeeps(o, v, id, idx);
        ServeMarks(o, v, id, idx, done);
        FirstsSnoc(o, done, (id, idx));
        DrainIsFirstRequests(o, Serve(o, v, id, idx), pending[1..], done + [(id, idx)]);
        Assoc(done, [(id, idx)], Reached(o, v.loaded.Keys, pending[1..]));
      } else {
        assert done + [] == done;
        MarksSame(o, v, v.(disconnect := true), done);
      }
    }
  }

  lemma EmptyRun(o: Offer)
    requires o.Valid()
    ensures Chunks(INITIAL.trace) == ChunksFor(o, Firsts([])) == []
  {}

  /** In particular, no two packets of any run carry the same chunk. */
  lemma NoChunkTwice(o: Offer, events: seq<Event>, i: nat, j: nat)
    requires o.Valid() && i < j < |Chunks(Run(o, events).trace)|
    ensures var t := Chunks(Run(o, events).trace);
            t[i].packId != t[j].packId || t[i].chunkIndex != t[j].chunkIndex
  {
    TraceIsFirstRequests(o, events);
    var keys := Firsts(ValidRequests(o, events));
    assert keys[i] != keys[j];
    assert keys[i] in keys && keys[j] in keys;
  }

  // ----- Completion -----

  /** `nextPack` has been called once for each fully sent pack, empty ones aside, and for no other. */
  ghost predicate CompletionsExact(v: View) {
    && (forall id :: id in v.completions <==> id in v.loaded && v.loaded[id] != [] && AllSent(v.loaded[id]))
    && forall i, j :: 0 <= i < j < |v.completions| ==> v.completions[i] != v.completions[j]
  }

  lemma LoadCompletions(o: Offer, v: View, id: Uuid)
    requires ViewFits(o, v) && id in o.packs && CompletionsExact(v)
    ensures CompletionsExact(Load(o, v, id))
  {
    hide ChunkCount;
    var v' := Load(o, v, id);
    if id !in v.loaded && v'.loaded[id] != [] {
      assert !v'.loaded[id][0];
    }
  }

  /** A call of `nextPack` happens exactly when the last missing chunk of the pack goes out. */
  lemma ServeCompletions(o: Offer, v: View, id: Uuid, idx: nat)
    requires ViewFits(o, v) && id in v.loaded && idx < o.Count(id)
    requires CompletionsExact(v)
    ensures CompletionsExact(Serve(o, v, id, idx))
    ensures Serve(o, v, id, idx).completions == v.completions + (
              if !v.loaded[id][idx] && forall i :: 0 <= i < |v.loaded[id]| && i != idx ==> v.loaded[id][i]
              then [id] else [])
  {
    hide Slice, SliceStart, Remove;
    var v' := Serve(o, v, id, idx);
    var flags := v.loaded[id];
    if !flags[idx] {
      assert v'.loaded == v.loaded[id := flags[idx := true]];
      assert !AllSent(flags);
      assert AllSent(flags[idx := true]) <==> forall i :: 0 <= i < |flags| && i != idx ==> flags[i] by {
        if AllSent(flags[idx := true]) {
          assert forall i :: 0 <= i < |flags| && i != idx ==> flags[idx := true][i] == flags[i];
        }
      }
    }
  }

  lemma {:induction false} AnnounceAllCompletions(o: Offer, v: View, ids: seq<Uuid>)
    requires ViewFits(o, v) && CompletionsExact(v)
    ensures CompletionsExact(AnnounceAll(o, v, ids))
    decreases |ids|
  {
    if ids != [] && ids[0] in o.packs {
      LoadCompletions(o, v, ids[0]);
      AnnounceAllCompletions(o, Announce(o, v, ids[0]), ids[1..]);
    }
  }

  lemma {:induction false} RunCompletions(o: Offer, events: seq<Event>)
    requires o.Valid()
    ensures CompletionsExact(Run(o, events))
  {
    if events != [] {
      var before, e := events[..|events| - 1], events[|events| - 1];
      RunCompletions(o, before);
      var v := Run(o, before);
      hide Serve;
      match e
      case SendPacks(ids) => AnnounceAllCompletions(o, v, ids);
      case ChunkRequest(id, idx) =>
        if id in o.packs {
          LoadCompletions(o, v, id);
          if o.Serves(id, idx) {
            ServeCompletions(o, Select(Load(o, v, id), id), id, idx);
          }
        }
      case _ =>
    }
  }

  /** In terms of the client alone: a pack completes iff it has chunks and every one has been asked for. */
  lemma CompletedIffAllRequested(o: Offer, events: seq<Event>, id: Uuid)
    requires o.Valid()
    ensures id in Run(o, events).completions <==>
            id in o.packs && o.Count(id) > 0 &&
            forall i: nat :: i < o.Count(id) ==> (id, i) in ValidRequests(o, events)
  {
    hide Run, ValidRequests;
    RunCompletions(o, events);
    TraceIsFirstRequests(o, events);
    AllSentIffMarked(o, Run(o, events), ValidRequests(o, events), id);
  }

  lemma AllSentIffMarked(o: Offer, v: View, done: seq<Key>, id: Uuid)
    requires ViewFits(o, v) && Marks(o, v, done)
    ensures id in v.loaded && v.loaded[id] != [] && AllSent(v.loaded[id]) <==>
            id in o.packs && o.Count(id) > 0 && forall i: nat :: i < o.Count(id) ==> (id, i) in done
  {
    hide ChunkCount;
    if id in o.packs && o.Count(id) > 0 {
      var n := o.Count(id);
      if forall i: nat :: i < n ==> (id, i) in done {
        assert (id, 0) in done;
        assert id in v.loaded;
        forall i | 0 <= i < |v.loaded[id]|
          ensures v.loaded[id][i]
        {
          assert (id, i) in done;
        }
      }
      if id in v.loaded && AllSent(v.loaded[id]) {
        forall i: nat | i < n
          ensures (id, i) in done
        {
          assert v.loaded[id][i];
        }
      }
    }
  }

  // ----- Reassembly -----

  function WriteAt(buffer: Bytes, offset: nat, data: Bytes): (r: Bytes)
    requires offset + |data| <= |buffer|
    ensures |r| == |buffer|
    ensures forall k :: 0 <= k < |buffer| ==>
              r[k] == if offset <= k < offset + |data| then data[k - offset] else buffer[k]
  {
    buffer[..offset] + data + buffer[offset + |data|..]
  }

  /** Every chunk of the pack stays inside a buffer of `size` bytes. */
  predicate StaysInside(chunks: seq<Message>, id: Uuid, size: nat) {
    forall m :: m in chunks ==> m.ChunkData? && (m.packId == id ==> m.progress + |m.data| <= size)
  }

  /** What a client has after writing each chunk of the pack at its `progress` offset. */
  function Rebuild(buffer: Bytes, chunks: seq<Message>, id: Uuid): (r: Bytes)
    requires StaysInside(chunks, id, |buffer|)
    ensures |r| == |buffer|
  {
    if chunks == [] then buffer
    else
      var before := Rebuild(buffer, chunks[..|chunks| - 1], id);
      var m := chunks[|chunks| - 1];
      if m.packId == id then WriteAt(before, m.progress, m.data) else before
  }

  function TotalLength(chunks: seq<Message>, id: Uuid): nat {
    if chunks == [] then 0
    else
      var m := chunks[|chunks| - 1];
      TotalLength(chunks[..|chunks| - 1], id) + if m.ChunkData? && m.packId == id then |m.data| else 0
  }

  lemma ChunkStaysInside(o: Offer, keys: seq<Key>, id: Uuid)
    requires o.Valid() && id in o.packs
    requires forall k :: k in keys ==> o.Serves(k.0, k.1)
    ensures StaysInside(ChunksFor(o, keys), id, |o.packs[id].content|)
  {
    var chunks := ChunksFor(o, keys);
    forall m | m in chunks
      ensures m.ChunkData? && (m.packId == id ==> m.progress + |m.data| <= |o.packs[id].content|)
    {
      var i :| 0 <= i < |chunks| && chunks[i] == m;
      assert keys[i] in keys;
      SliceInside(|o.packs[keys[i].0].content|, keys[i].1, o.maxChunk);
    }
  }

  /** After any chunks, a byte is the pack's if its slice is among them, and untouched otherwise. */
  lemma {:induction false} RebuildBytes(o: Offer, keys: seq<Key>, id: Uuid, buffer: Bytes)
    requires o.Valid() && id in o.packs && |buffer| == |o.packs[id].content|
    requires forall k :: k in keys ==> o.Serves(k.0, k.1)
    ensures StaysInside(ChunksFor(o, keys), id, |buffer|)
    ensures forall b :: 0 <= b < |buffer| ==>
              Rebuild(buffer, ChunksFor(o, keys), id)[b] ==
              if (id, b / o.maxChunk) in keys then o.packs[id].content[b] else buffer[b]
  {
    hide ChunkCount, SliceStart, SliceLength;
    ChunkStaysInside(o, keys, id);
    if keys != [] {
      var before, last := keys[..|keys| - 1], keys[|keys| - 1];
      RebuildBytes(o, before, id, buffer);
      assert keys == before + [last];
      assert last in keys;
      var chunks := ChunksFor(o, keys);
      assert chunks[..|chunks| - 1] == ChunksFor(o, before);
      forall b | 0 <= b < |buffer|
        ensures Rebuild(buffer, chunks, id)[b] ==
                if (id, b / o.maxChunk) in keys then o.packs[id].content[b] else buffer[b]
      {
        assert (id, b / o.maxChunk) in keys <==> (id, b / o.maxChunk) in before || (id, b / o.maxChunk) == last;
        if last.0 == id {
          WrittenByte(o, id, last.1, Rebuild(buffer, ChunksFor(o, before), id), b);
        }
      }
    }
  }

  /** Writing one chunk sets the bytes of its slice to those of the pack and leaves the others. */
  lemma WrittenByte(o: Offer, id: Uuid, i: nat, buffer: Bytes, b: nat)
    requires o.Valid() && o.Serves(id, i) && |buffer| == |o.packs[id].content| && b < |buffer|
    ensures var m := o.Chunk(id, i);
            && m.progress + |m.data| <= |buffer|
            && WriteAt(buffer, m.progress, m.data)[b] ==
               if b / o.maxChunk == i then o.packs[id].content[b] else buffer[b]
  {
    SliceInside(|buffer|, i, o.maxChunk);
    ByteInSlice(|buffer|, b, i, o.maxChunk);
    hide ChunkCount, SliceLength, SliceStart;
  }

  /** The lengths of the keys of `id` with index below `n`. */
  function LengthBelow(o: Offer, keys: seq<Key>, id: Uuid, n: nat): nat
    requires o.Valid() && forall k :: k in keys ==> o.Serves(k.0, k.1)
  {
    if keys == [] then 0
    else
      var before, last := keys[..|keys| - 1], keys[|keys| - 1];
      assert last in keys;
      LengthBelow(o, before, id, n) + if last.0 == id && last.1 < n then |o.Chunk(id, last.1).data| else 0
  }

  lemma {:induction false} LengthBelowStep(o: Offer, keys: seq<Key>, id: Uuid, n: nat)
    requires o.Valid() && (forall k :: k in keys ==> o.Serves(k.0, k.1)) && o.Serves(id, n)
    requires forall i, j :: 0 <= i < j < |keys| ==> keys[i] != keys[j]
    ensures LengthBelow(o, keys, id, n + 1) ==
            LengthBelow(o, keys, id, n) + if (id, n) in keys then |o.Chunk(id, n).data| else 0
  {
    if keys != [] {
      var before, last := keys[..|keys| - 1], keys[|keys| - 1];
      assert keys == before + [last];
      LengthBelowStep(o, before, id, n);
      if last == (id, n) {
        forall i | 0 <= i < |before|
          ensures before[i] != (id, n)
        {
          assert before[i] == keys[i] != keys[|keys| - 1];
        }
      }
    }
  }

  lemma {:induction false} LengthBelowIsTile(o: Offer, keys: seq<Key>, id: Uuid, n: nat)
    requires o.Valid() && id in o.packs && n <= o.Count(id)
    requires forall k :: k in keys ==> o.Serves(k.0, k.1)
    requires forall i, j :: 0 <= i < j < |keys| ==> keys[i] != keys[j]
    requires forall i: nat :: i < n ==> (id, i) in keys
    ensures LengthBelow(o, keys, id, n) == |Tile(o.packs[id].content, n, o.maxChunk)|
  {
    if n == 0 {
      LengthBelowZero(o, keys, id);
    } else {
      LengthBelowIsTile(o, keys, id, n - 1);
      LengthBelowStep(o, keys, id, n - 1);
    }
  }

  lemma {:induction false} LengthBelowZero(o: Offer, keys: seq<Key>, id: Uuid)
    requires o.Valid() && forall k :: k in keys ==> o.Serves(k.0, k.1)
    ensures LengthBelow(o, keys, id, 0) == 0
  {
    if keys != [] {
      LengthBelowZero(o, keys[..|keys| - 1], id);
    }
  }

  lemma {:induction false} TotalIsLengthBelow(o: Offer, keys: seq<Key>, id: Uuid)
    requires o.Valid() && id in o.packs && forall k :: k in keys ==> o.Serves(k.0, k.1)
    ensures TotalLength(ChunksFor(o, keys), id) == LengthBelow(o, keys, id, o.Count(id))
  {
    if keys != [] {
      var before, last := keys[..|keys| - 1], keys[|keys| - 1];
      assert last in keys;
      TotalIsLengthBelow(o, before, id);
      var chunks := ChunksFor(o, keys);
      assert chunks[..|chunks| - 1] == ChunksFor(o, before);
    }
  }

  lemma {:induction false} RequestedIsValid(o: Offer, events: seq<Event>, id: Uuid, idx: int)
    requires o.Valid() && o.Serves(id, idx) && ChunkRequest(id, idx) in events
    ensures (id, idx) in ValidRequests(o, events)
  {
    var before, e := events[..|events| - 1], events[|events| - 1];
    assert events == before + [e];
    if e != ChunkRequest(id, idx) {
      RequestedIsValid(o, before, id, idx);
    }
  }

  lemma {:induction false} ValidIsRequested(o: Offer, events: seq<Event>, id: Uuid, index: nat)
    requires o.Valid() && (id, index) in ValidRequests(o, events)
    ensures ChunkRequest(id, index) in events
  {
    var before, e := events[..|events| - 1], events[|events| - 1];
    assert events == before + [e];
    if e != ChunkRequest(id, index) {
      ValidIsRequested(o, before, id, index);
    }
  }

  /**
   Reassembly: once every index of a pack has been requested, in any order, with repeats and with
   anything else in between, the chunks sent rebuild the pack over any buffer of its size, and
   their lengths add up to its size.
   */
  lemma Reassembly(o: Offer, events: seq<Event>, id: Uuid, buffer: Bytes)
    requires o.Valid() && id in o.packs && |buffer| == |o.packs[id].content|
    requires forall i: nat :: i < o.Count(id) ==> ChunkRequest(id, i) in events
    ensures var chunks := Chunks(Run(o, events).trace);
            && StaysInside(chunks, id, |buffer|)
            && Rebuild(buffer, chunks, id) == o.packs[id].content
            && TotalLength(chunks, id) == |o.packs[id].content|
  {
    hide Run, ValidRequests, Firsts, Chunks, ChunksFor, Rebuild, StaysInside, TotalLength, LengthBelow, Tile, Marks,
         ChunkCount;
    TraceIsFirstRequests(o, events);
    var keys := Firsts(ValidRequests(o, events));
    forall i: nat | i < o.Count(id)
      ensures (id, i) in keys
    {
      RequestedIsValid(o, events, id, i);
    }
    RebuildAll(o, keys, id, buffer);
    TotalIsLengthBelow(o, keys, id);
    LengthBelowIsTile(o, keys, id, o.Count(id));
    SlicesTile(o.packs[id].content, o.maxChunk);
  }

  lemma RebuildAll(o: Offer, keys: seq<Key>, id: Uuid, buffer: Bytes)
    requires o.Valid() && id in o.packs && |buffer| == |o.packs[id].content|
    requires forall k :: k in keys ==> o.Serves(k.0, k.1)
    requires forall i: nat :: i < o.Count(id) ==> (id, i) in keys
    ensures StaysInside(ChunksFor(o, keys), id, |buffer|)
    ensures Rebuild(buffer, ChunksFor(o, keys), id) == o.packs[id].content
  {
    hide Rebuild, ChunksFor, ChunkCount;
    var content := o.packs[id].content;
    RebuildBytes(o, keys, id, buffer);
    forall b | 0 <= b < |buffer|
      ensures Rebuild(buffer, ChunksFor(o, keys), id)[b] == content[b]
    {
      var i := OffsetInSlice(|content|, b, o.maxChunk);
      assert (id, i) in keys;
    }
  }
}
