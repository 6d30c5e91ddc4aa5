/** The download queue: what always holds of it, and exactly when it lists the unfinished packs. */
module PackQueue {
  import opened Codec
  import opened ChunkMath
  import opened SchedulerSpec

  /** A non-nil current pack is queued, and only loaded packs are queued. */
  ghost predicate Sound(v: View) {
    && (v.current == NIL || v.current in v.queue)
    && forall id :: id in v.queue ==> id in v.loaded
  }

  lemma {:induction false} AnnounceAllSound(o: Offer, v: View, ids: seq<Uuid>)
    requires o.Valid() && Sound(v)
    ensures Sound(AnnounceAll(o, v, ids))
    decreases |ids|
  {
    if ids != [] && ids[0] in o.packs {
      AnnounceAllSound(o, Announce(o, v, ids[0]), ids[1..]);
    }
  }

  lemma AdvanceSound(v: View)
    requires forall id :: id in v.queue ==> id in v.loaded
    ensures Sound(Advance(v))
  {}

  lemma ServeSound(o: Offer, v: View, id: Uuid, idx: nat)
    requires ViewFits(o, v) && id in v.loaded && idx < o.Count(id) && Sound(v)
    ensures Sound(Serve(o, v, id, idx))
  {
    hide Advance, Slice, SliceStart;
    if !v.loaded[id][idx] {
      var flags := v.loaded[id][idx := true];
      var sent := v.(loaded := v.loaded[id := flags], trace := v.trace + [o.Chunk(id, idx)]);
      AdvanceSound(sent.(completions := sent.completions + [id]));
    }
  }

  /** In every reachable state a non-nil current pack is in the queue, which holds loaded packs only. */
  lemma {:induction false} RunSound(o: Offer, events: seq<Event>)
    requires o.Valid()
    ensures Sound(Run(o, events))
  {
    if events != [] {
      hide AnnounceAll, Serve, ChunkCount;
      var before, e := events[..|events| - 1], events[|events| - 1];
      RunSound(o, before);
      var v := Run(o, before);
      match e
      case SendPacks(ids) => AnnounceAllSound(o, v, ids);
      case ChunkRequest(id, idx) =>
        if o.Serves(id, idx) {
          ServeSound(o, Select(Load(o, v, id), id), id, idx);
        }
      case _ =>
    }
  }

  // ----- Exactness -----

  predicate Finished(v: View, id: Uuid) {
    id in v.loaded && AllSent(v.loaded[id])
  }

  predicate Distinct(q: seq<Uuid>) {
    forall i, j :: 0 <= i < j < |q| ==> q[i] != q[j]
  }

  /** The queue lists exactly the loaded unfinished packs, once each. */
  ghost predicate Exact(v: View) {
    && Sound(v)
    && Distinct(v.queue)
    && forall id :: id in v.queue <==> id in v.loaded && !Finished(v, id)
  }

  /** Serving `idx` would send the last missing chunk of the pack. */
  predicate LastMissing(o: Offer, v: View, id: Uuid, idx: int)
    requires ViewFits(o, v)
  {
    && o.Serves(id, idx)
    && if id in v.loaded then !v.loaded[id][idx] && forall i :: 0 <= i < |v.loaded[id]| && i != idx ==> v.loaded[id][i]
       else o.Count(id) == 1
  }

  /** What a request must satisfy for the queue to stay exact; an empty pack has nothing left to send. */
  predicate RequestInTurn(o: Offer, v: View, id: Uuid, idx: int)
    requires ViewFits(o, v)
  {
    id in o.packs ==>
      && o.Count(id) > 0 && !Finished(v, id)
      && (LastMissing(o, v, id, idx) ==> v.current == NIL || v.current == id)
  }

  lemma {:induction false} RemoveDistinct(q: seq<Uuid>, id: Uuid)
    requires Distinct(q)
    ensures Distinct(Remove(q, id))
  {
    if q != [] {
      RemoveDistinct(q[1..], id);
      var r := Remove(q[1..], id);
      forall i | 0 <= i < |r|
        ensures r[i] != q[0]
      {
        assert r[i] in q[1..];
      }
    }
  }

  /** On a queue without repeats, `nextPack` takes out the current pack and nothing else. */
  lemma AdvanceDistinct(v: View)
    requires Distinct(v.queue)
    ensures Distinct(Advance(v).queue)
    ensures forall id :: id in Advance(v).queue <==> id in v.queue && id != v.current
    ensures Advance(v).loaded == v.loaded
    ensures Advance(v).current == NIL || Advance(v).current in Advance(v).queue
  {
    RemoveDistinct(v.queue, v.current);
    if v.queue != [] {
      assert v.queue == [v.queue[0]] + v.queue[1..];
    }
  }

  lemma LoadEffects(o: Offer, v: View, id: Uuid)
    requires ViewFits(o, v) && id in o.packs
    ensures var r := Load(o, v, id);
            && r.queue == v.queue && r.current == v.current
            && r.loaded.Keys == v.loaded.Keys + {id}
            && (forall x :: x in v.loaded ==> r.loaded[x] == v.loaded[x])
            && |r.loaded[id]| == o.Count(id)
            && (Finished(r, id) <==> o.Count(id) == 0 || Finished(v, id))
            && (id !in v.loaded ==> forall i :: 0 <= i < o.Count(id) ==> !r.loaded[id][i])
  {
    hide ChunkCount;
    var r := Load(o, v, id);
    if id !in v.loaded && o.Count(id) > 0 {
      assert !r.loaded[id][0];
    }
  }

  lemma ReadyExact(o: Offer, v: View, id: Uuid)
    requires ViewFits(o, v) && id in o.packs && Exact(v)
    ensures var ready := Select(Load(o, v, id), id);
            && ready.current == (if v.current == NIL then id else v.current)
            && Distinct(ready.queue) && Sound(ready)
            && (forall x :: x in ready.queue <==> x in ready.loaded && (x == id || !Finished(ready, x)))
            && (Finished(ready, id) <==> o.Count(id) == 0 || Finished(v, id))
  {
    hide ChunkCount, Load, AllSent;
    LoadEffects(o, v, id);
    var loaded := Load(o, v, id);
    forall x | x in v.loaded && x != id
      ensures Finished(loaded, x) <==> Finished(v, x)
    {}
  }

  /** Serving keeps a ready queue exact unless it finishes a pack that is not current. */
  lemma ServeExactly(o: Offer, v: View, id: Uuid, idx: nat)
    requires ViewFits(o, v) && id in v.loaded && idx < o.Count(id) && !Finished(v, id)
    requires Exact(v)
    ensures Exact(Serve(o, v, id, idx)) <==> (LastMissing(o, v, id, idx) ==> v.current == id)
  {
    hide Advance, Slice, SliceStart;
    var flags := v.loaded[id][idx := true];
    var v' := Serve(o, v, id, idx);
    if v.loaded[id][idx] {
      assert v' == v;
    } else {
      LastMissingFlags(o, v, id, idx);
      var sent := v.(loaded := v.loaded[id := flags], trace := v.trace + [o.Chunk(id, idx)]);
      if AllSent(flags) {
        var done := sent.(completions := sent.completions + [id]);
        AdvanceDistinct(done);
        assert v' == Advance(done);
        assert Finished(v', id);
      } else {
        assert v' == sent;
      }
    }
  }

  lemma LastMissingFlags(o: Offer, v: View, id: Uuid, idx: nat)
    requires ViewFits(o, v) && id in v.loaded && idx < o.Count(id) && !v.loaded[id][idx]
    ensures AllSent(v.loaded[id][idx := true]) <==> LastMissing(o, v, id, idx)
  {
    var flags := v.loaded[id];
    if AllSent(flags[idx := true]) {
      forall i | 0 <= i < |flags| && i != idx
        ensures flags[i]
      {
        assert flags[idx := true][i];
      }
    }
  }

  /** A request keeps the queue exact if and only if it comes in turn. */
  lemma RequestExactly(o: Offer, v: View, id: Uuid, idx: int)
    requires ViewFits(o, v) && Exact(v)
    ensures Exact(Request(o, v, id, idx)) <==> RequestInTurn(o, v, id, idx)
  {
    hide Serve, Advance;
    if id in o.packs {
      var ready := Select(Load(o, v, id), id);
      ReadyExact(o, v, id);
      if Finished(ready, id) {
        FinishedStaysQueued(o, ready, id, idx);
      } else {
        assert Exact(ready);
        if o.Serves(id, idx) {
          ServeExactly(o, ready, id, idx);
          assert LastMissing(o, ready, id, idx) <==> LastMissing(o, v, id, idx) by {
            ReadyLastMissing(o, v, id, idx);
          }
        }
      }
    }
  }

  lemma ReadyLastMissing(o: Offer, v: View, id: Uuid, idx: nat)
    requires ViewFits(o, v) && o.Serves(id, idx)
    ensures LastMissing(o, Select(Load(o, v, id), id), id, idx) <==> LastMissing(o, v, id, idx)
  {
    var flags := Load(o, v, id).loaded[id];
    if id !in v.loaded && o.Count(id) > 1 {
      var other := if idx == 0 then 1 else 0;
      assert !flags[other];
    }
  }

  lemma FinishedStaysQueued(o: Offer, ready: View, id: Uuid, idx: int)
    requires ViewFits(o, ready) && Finished(ready, id) && id in ready.queue
    ensures !Exact(ready)
    ensures o.Serves(id, idx) ==> Serve(o, ready, id, idx) == ready
  {}

  /** The announced names, up to the first unknown one, are new packs with chunks: not loaded and not repeated. */
  predicate NewNames(o: Offer, loaded: set<Uuid>, ids: seq<Uuid>)
    requires o.Valid()
    decreases |ids|
  {
    ids == [] || ids[0] !in o.packs ||
    (ids[0] !in loaded && o.Count(ids[0]) > 0 && NewNames(o, loaded + {ids[0]}, ids[1..]))
  }

  lemma {:induction false} AnnounceAllGrows(o: Offer, v: View, ids: seq<Uuid>)
    requires o.Valid()
    ensures v.queue <= AnnounceAll(o, v, ids).queue
    ensures forall id :: id in v.loaded ==>
              id in AnnounceAll(o, v, ids).loaded && AnnounceAll(o, v, ids).loaded[id] == v.loaded[id]
    decreases |ids|
  {
    if ids != [] && ids[0] in o.packs {
      AnnounceAllGrows(o, Announce(o, v, ids[0]), ids[1..]);
    }
  }

  /** Announcing packs keeps the queue exact if and only if their names are new. */
  lemma {:induction false} AnnounceExactly(o: Offer, v: View, ids: seq<Uuid>)
    requires ViewFits(o, v) && Exact(v)
    ensures Exact(AnnounceAll(o, v, ids)) <==> NewNames(o, v.loaded.Keys, ids)
    decreases |ids|
  {
    if ids != [] && ids[0] in o.packs {
      var id := ids[0];
      var v' := Announce(o, v, id);
      if id in v.loaded || o.Count(id) == 0 {
        AnnounceAllGrows(o, v', ids[1..]);
        var end := AnnounceAll(o, v', ids[1..]);
        assert end.queue[|v.queue|] == id;
        assert end.loaded[id] == v'.loaded[id];
        if id in v.queue {
          var i :| 0 <= i < |v.queue| && v.queue[i] == id;
          assert end.queue[i] == id;
        } else {
          assert id in end.queue && Finished(end, id);
        }
      } else {
        NewPackExact(o, v, id);
        assert v'.loaded.Keys == v.loaded.Keys + {id};
        AnnounceExactly(o, v', ids[1..]);
      }
    }
  }

  lemma NewPackExact(o: Offer, v: View, id: Uuid)
    requires ViewFits(o, v) && Exact(v) && id in o.packs && id !in v.loaded && o.Count(id) > 0
    ensures Exact(Announce(o, v, id))
  {
    hide ChunkCount;
    var v' := Announce(o, v, id);
    assert !v'.loaded[id][0];
  }

  /** What a message must satisfy for the queue to stay exact. */
  predicate InTurn(o: Offer, v: View, e: Event)
    requires ViewFits(o, v)
  {
    match e
    case SendPacks(ids) => NewNames(o, v.loaded.Keys, ids)
    case ChunkRequest(id, idx) => RequestInTurn(o, v, id, idx)
    case _ => true
  }

  /** Every message of the run comes in turn. */
  ghost predicate Orderly(o: Offer, events: seq<Event>)
    requires o.Valid()
  {
    events == [] ||
    var before, e := events[..|events| - 1], events[|events| - 1];
    Orderly(o, before) && InTurn(o, Run(o, before), e)
  }

  lemma StepExactly(o: Offer, v: View, e: Event)
    requires ViewFits(o, v) && Exact(v)
    ensures Exact(Step(o, v, e)) <==> InTurn(o, v, e)
  {
    hide AnnounceAll, Request, RequestInTurn, NewNames;
    match e
    case SendPacks(ids) => AnnounceExactly(o, v, ids);
    case ChunkRequest(id, idx) => RequestExactly(o, v, id, idx);
    case _ =>
  }

  /** The queue is exact after every prefix of a run if and only if every message of the run comes in turn. */
  lemma {:induction false} ExactIffOrderly(o: Offer, events: seq<Event>)
    requires o.Valid()
    ensures (forall n :: 0 <= n <= |events| ==> Exact(Run(o, events[..n]))) <==> Orderly(o, events)
  {
    hide Exact, Step, InTurn;
    if events == [] {
      EmptyExact(o);
      assert forall n :: 0 <= n <= |events| ==> events[..n] == [];
    } else {
      var before, e := events[..|events| - 1], events[|events| - 1];
      ExactIffOrderly(o, before);
      assert forall n :: 0 <= n < |events| ==> events[..n] == before[..n];
      assert events[..|events|] == events && before[..|before|] == before;
      if Exact(Run(o, before)) {
        StepExactly(o, Run(o, before), e);
      }
    }
  }

  lemma EmptyExact(o: Offer)
    requires o.Valid()
    ensures Exact(Run(o, []))
  {}

  /** A client that asks for one pack at a time: the current one, or if there is none one it has not finished. */
  predicate OneAtATime(o: Offer, v: View, e: Event)
    requires ViewFits(o, v)
  {
    match e
    case SendPacks(ids) => NewNames(o, v.loaded.Keys, ids)
    case ChunkRequest(id, _) =>
      id in o.packs ==> if v.current == NIL then o.Count(id) > 0 && !Finished(v, id) else id == v.current
    case _ => true
  }

  ghost predicate Sequential(o: Offer, events: seq<Event>)
    requires o.Valid()
  {
    events == [] ||
    var before, e := events[..|events| - 1], events[|events| - 1];
    Sequential(o, before) && OneAtATime(o, Run(o, before), e)
  }

  lemma SequentialStep(o: Offer, v: View, e: Event)
    requires ViewFits(o, v) && Exact(v) && OneAtATime(o, v, e)
    ensures InTurn(o, v, e)
  {
    hide NewNames, LastMissing, ChunkCount;
    if e.ChunkRequest? && e.id in o.packs && v.current != NIL {
      assert v.current in v.queue;
      assert !Finished(v, e.id);
      assert v.loaded[e.id] != [];
    }
  }

  /** Clients that download one pack at a time always stay in turn, so their queue is always exact. */
  lemma {:induction false} SequentialIsOrderly(o: Offer, events: seq<Event>)
    requires o.Valid() && Sequential(o, events)
    ensures Orderly(o, events) && Exact(Run(o, events))
  {
    if events == [] {
      EmptyExact(o);
    } else {
      hide Exact, Step, InTurn, OneAtATime;
      var before, e := events[..|events| - 1], events[|events| - 1];
      SequentialIsOrderly(o, before);
      SequentialStep(o, Run(o, before), e);
      StepExactly(o, Run(o, before), e);
    }
  }

  /**
   Interleaved downloads break it: with `a` of two or more chunks under way, finishing the
   one-chunk pack `b` drops `a` from the queue and leaves `b` in it.
   */
  lemma InterleavedLosesPack(o: Offer, a: Uuid, b: Uuid)
    requires o.Valid() && a in o.packs && b in o.packs && a != b && a != NIL
    requires o.Count(a) >= 2 && o.Count(b) == 1
    ensures var v := Run(o, [ChunkRequest(a, 0), ChunkRequest(b, 0)]);
            v.queue == [b] && v.current == b && Finished(v, b) && !Finished(v, a)
  {
    hide Slice, SliceStart, ChunkCount;
    var e1, e2 := ChunkRequest(a, 0), ChunkRequest(b, 0);
    RunSnoc(o, [], e1);
    RunSnoc(o, [e1], e2);
    assert [] + [e1] == [e1] && [e1] + [e2] == [e1, e2];
    FirstOfMany(o, a);
    LastOfOther(o, Request(o, INITIAL, a, 0), a, b);
  }

  lemma RunSnoc(o: Offer, events: seq<Event>, e: Event)
    requires o.Valid()
    ensures Run(o, events + [e]) == Step(o, Run(o, events), e)
  {
    assert (events + [e])[..|events|] == events;
  }

  lemma FirstOfMany(o: Offer, a: Uuid)
    requires o.Valid() && a in o.packs && a != NIL && o.Count(a) >= 2
    ensures var v := Request(o, INITIAL, a, 0);
            && v.queue == [a] && v.current == a && v.loaded.Keys == {a}
            && !Finished(v, a)
  {
    hide Slice, SliceStart, ChunkCount;
    var v := Request(o, INITIAL, a, 0);
    assert Load(o, INITIAL, a).loaded.Keys == {a};
    var flags := Load(o, INITIAL, a).loaded[a][0 := true];
    assert !flags[1];
    assert v.loaded[a] == flags;
  }

  lemma LastOfOther(o: Offer, v: View, a: Uuid, b: Uuid)
    requires ViewFits(o, v) && b in o.packs && a != b && o.Count(b) == 1
    requires v.queue == [a] && v.current == a && a != NIL && v.loaded.Keys == {a} && !Finished(v, a)
    ensures var v' := Request(o, v, b, 0);
            v'.queue == [b] && v'.current == b && Finished(v', b) && !Finished(v', a)
  {
    hide Slice, SliceStart, ChunkCount;
    var ready := Select(Load(o, v, b), b);
    assert ready.queue == [a, b];
    var flags := ready.loaded[b][0 := true];
    assert AllSent(flags);
    var v' := Request(o, v, b, 0);
    assert v'.queue == ready.queue[1..] == [b];
    assert v'.loaded == ready.loaded[b := flags];
  }
}
