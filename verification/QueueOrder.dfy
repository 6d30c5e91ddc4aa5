/** The order of the download queue, and the order in which packs are completed. */
module QueueOrder {
  import opened Common
  import opened Codec
  import opened ChunkMath
  import opened SchedulerSpec
  import opened PackQueue
  import opened Replies

  // ----- One move -----

  /** A current pack at the front is taken off, and the pack behind it is next. */
  lemma AdvanceFromFront(v: View)
    requires v.queue != [] && v.queue[0] == v.current
    ensures Advance(v).queue == v.queue[1..]
    ensures Advance(v).current == if |v.queue| == 1 then NIL else v.queue[1]
  {}

  /** Otherwise the front is next, and the others stay in their order: `kept` lists their places. */
  lemma AdvanceFromBehind(v: View) returns (kept: seq<nat>)
    requires v.queue != [] && v.queue[0] != v.current
    ensures Advance(v).current == v.queue[0]
    ensures |kept| == |Advance(v).queue| && forall i, j :: 0 <= i < j < |kept| ==> kept[i] < kept[j]
    ensures forall i :: 0 <= i < |kept| ==> kept[i] < |v.queue| && Advance(v).queue[i] == v.queue[kept[i]]
    ensures forall j: nat :: j < |v.queue| ==> (j in kept <==> v.queue[j] != v.current)
  {
    kept := RemoveKeeps(v.queue, v.current);
  }

  lemma {:induction false} RemoveKeeps(q: seq<Uuid>, id: Uuid) returns (kept: seq<nat>)
    ensures |kept| == |Remove(q, id)| && forall i, j :: 0 <= i < j < |kept| ==> kept[i] < kept[j]
    ensures forall i :: 0 <= i < |kept| ==> kept[i] < |q| && Remove(q, id)[i] == q[kept[i]]
    ensures forall j: nat :: j < |q| ==> (j in kept <==> q[j] != id)
  {
    if q == [] {
      kept := [];
    } else {
      var before, last := q[..|q| - 1], q[|q| - 1];
      kept := RemoveKeeps(before, id);
      RemoveSnoc(before, last, id);
      assert q == before + [last];
      hide Remove;
      if last != id {
        var places := kept;
        kept := kept + [|before|];
        assert forall j: nat :: j in kept <==> j in places || j == |before|;
      }
    }
  }

  lemma {:induction false} RemoveSnoc(q: seq<Uuid>, x: Uuid, id: Uuid)
    ensures Remove(q + [x], id) == Remove(q, id) + if x == id then [] else [x]
  {
    if q == [] {
      assert q + [x] == [x] && [x][1..] == [];
    } else {
      TailOfConcat(q, [x]);
      RemoveSnoc(q[1..], x, id);
    }
  }

  lemma {:induction false} RemoveAbsent(q: seq<Uuid>, id: Uuid)
    requires id !in q
    ensures Remove(q, id) == q
  {
    if q != [] {
      assert q == [q[0]] + q[1..];
      RemoveAbsent(q[1..], id);
    }
  }

  /** On a queue without repeats, both branches take the current pack out and leave the rest in order. */
  lemma AdvanceRemoves(v: View)
    requires Distinct(v.queue) && v.current in v.queue
    ensures Advance(v).queue == Remove(v.queue, v.current)
  {
    if v.queue[0] == v.current {
      assert v.queue == [v.current] + v.queue[1..];
      RemoveAbsent(v.queue[1..], v.current);
    }
  }

  /** Serving in turn leaves the queue, or takes out the pack it finishes. */
  lemma ServeMoves(o: Offer, v: View, id: Uuid, idx: nat)
    requires ViewFits(o, v) && id in v.loaded && idx < o.Count(id) && !Finished(v, id)
    requires Distinct(v.queue) && id in v.queue && (LastMissing(o, v, id, idx) ==> v.current == id)
    ensures var v' := Serve(o, v, id, idx);
            && v'.loaded.Keys == v.loaded.Keys
            && (forall x :: x in v.loaded && x != id ==> v'.loaded[x] == v.loaded[x])
            && if Finished(v', id)
               then v.current == id && v'.completions == v.completions + [id]
                    && v'.queue == Advance(v).queue == Remove(v.queue, id) && v'.current == Advance(v).current
               else v'.completions == v.completions && v'.queue == v.queue && v'.current == v.current
  {
    hide Slice, SliceStart, Remove, ChunkCount;
    var v' := Serve(o, v, id, idx);
    if !v.loaded[id][idx] {
      LastMissingFlags(o, v, id, idx);
      if AllSent(v.loaded[id][idx := true]) {
        AdvanceRemoves(v);
      }
    }
  }

  // ----- The order of the queue over a run -----

  /** Those of the packs that are loaded and not finished, in their order. */
  function Unfinished(v: View, ids: seq<Uuid>): seq<Uuid> {
    if ids == [] then []
    else (if ids[0] in v.loaded && !Finished(v, ids[0]) then [ids[0]] else []) + Unfinished(v, ids[1..])
  }

  lemma {:induction false} UnfinishedConcat(v: View, a: seq<Uuid>, b: seq<Uuid>)
    ensures Unfinished(v, a + b) == Unfinished(v, a) + Unfinished(v, b)
  {
    hide Finished;
    if a == [] {
      assert a + b == b;
    } else {
      TailOfConcat(a, b);
      UnfinishedConcat(v, a[1..], b);
      var first := if a[0] in v.loaded && !Finished(v, a[0]) then [a[0]] else [];
      Assoc(first, Unfinished(v, a[1..]), Unfinished(v, b));
    }
  }

  lemma {:induction false} UnfinishedSame(v: View, v': View, ids: seq<Uuid>)
    requires forall x :: x in ids ==> x in v.loaded && x in v'.loaded && (Finished(v, x) <==> Finished(v', x))
    ensures Unfinished(v', ids) == Unfinished(v, ids)
  {
    hide Finished;
    if ids != [] {
      assert ids[0] in ids;
      UnfinishedSame(v, v', ids[1..]);
    }
  }

  lemma {:induction false} AllUnfinished(v: View, ids: seq<Uuid>)
    requires forall x :: x in ids ==> x in v.loaded && !Finished(v, x)
    ensures Unfinished(v, ids) == ids
  {
    hide Finished;
    if ids != [] {
      assert ids[0] in ids && ids == [ids[0]] + ids[1..];
      AllUnfinished(v, ids[1..]);
    }
  }

  lemma {:induction false} UnfinishedRemoved(v: View, v': View, ids: seq<Uuid>, id: Uuid)
    requires Finished(v', id)
    requires forall x :: x in ids ==> x in v.loaded && x in v'.loaded
    requires forall x :: x in ids && x != id ==> (Finished(v, x) <==> Finished(v', x))
    ensures Unfinished(v', ids) == Remove(Unfinished(v, ids), id)
  {
    hide Finished;
    if ids != [] {
      var x, rest := ids[0], ids[1..];
      assert x in ids;
      UnfinishedRemoved(v, v', rest, id);
      var u, u' := Unfinished(v, rest), Unfinished(v', rest);
      assert ([x] + u)[1..] == u && [] + u == u && [] + u' == u';
    }
  }

  /** In every orderly run the queue lists the unfinished packs in the order they came up. */
  lemma {:induction false} QueueInOrder(o: Offer, events: seq<Event>)
    requires o.Valid() && Orderly(o, events)
    ensures Run(o, events).queue == Unfinished(Run(o, events), Mentioned(o, events))
  {
    if events != [] {
      hide Exact, Orderly, Mentioned, Step;
      var before, e := events[..|events| - 1], events[|events| - 1];
      OrderlyBefore(o, events);
      QueueInOrder(o, before);
      StepInOrder(o, before, e);
      assert before + [e] == events;
    }
  }

  lemma OrderlyBefore(o: Offer, events: seq<Event>)
    requires o.Valid() && Orderly(o, events)
    ensures Exact(Run(o, events))
    ensures events != [] ==> Orderly(o, events[..|events| - 1]) && Exact(Run(o, events[..|events| - 1]))
    ensures events != [] ==> InTurn(o, Run(o, events[..|events| - 1]), events[|events| - 1])
  {
    ExactIffOrderly(o, events);
    assert events[..|events|] == events;
  }

  lemma MentionedSnoc(o: Offer, before: seq<Event>, e: Event)
    ensures Mentioned(o, before + [e]) == Mention(o, Mentioned(o, before), e)
  {
    assert (before + [e])[..|before|] == before;
  }

  lemma MentionedLoaded(o: Offer, events: seq<Event>)
    requires o.Valid()
    ensures forall x :: x in Mentioned(o, events) <==> x in Run(o, events).loaded
  {
    forall x: Uuid
      ensures x in Mentioned(o, events) <==> x in Run(o, events).loaded
    {
      LoadedIff(o, events, x);
    }
  }

  lemma StepInOrder(o: Offer, before: seq<Event>, e: Event)
    requires o.Valid() && Exact(Run(o, before)) && InTurn(o, Run(o, before), e) && Exact(Run(o, before + [e]))
    requires Run(o, before).queue == Unfinished(Run(o, before), Mentioned(o, before))
    ensures Run(o, before + [e]).queue == Unfinished(Run(o, before + [e]), Mentioned(o, before + [e]))
  {
    hide Run, Mentioned, AnnounceAll, Request, Unfinished, Finished, Known, NewNames, RequestInTurn;
    var v, ids := Run(o, before), Mentioned(o, before);
    RunSnoc(o, before, e);
    MentionedSnoc(o, before, e);
    MentionedLoaded(o, before);
    match e
    case SendPacks(names) => AnnounceInOrder(o, v, ids, names);
    case ChunkRequest(id, idx) =>
      if id in o.packs {
        RequestInOrder(o, v, ids, id, idx);
      } else {
        UnknownRequest(o, v, id, idx);
        UnfinishedSame(v, Run(o, before + [e]), ids);
      }
    case _ => SameLoaded(v, Run(o, before + [e]), ids);
  }

  lemma SameLoaded(v: View, v': View, ids: seq<Uuid>)
    requires v.loaded == v'.loaded && forall x :: x in ids ==> x in v.loaded
    ensures Unfinished(v', ids) == Unfinished(v, ids)
  {
    UnfinishedSame(v, v', ids);
  }

  lemma UnknownRequest(o: Offer, v: View, id: Uuid, idx: int)
    requires ViewFits(o, v) && id !in o.packs
    ensures Request(o, v, id, idx) == v.(disconnect := true)
    ensures forall x :: Finished(v.(disconnect := true), x) <==> Finished(v, x)
  {}

  lemma AnnounceInOrder(o: Offer, v: View, ids: seq<Uuid>, names: seq<Uuid>)
    requires ViewFits(o, v) && Exact(AnnounceAll(o, v, names))
    requires v.queue == Unfinished(v, ids) && forall x :: x in ids <==> x in v.loaded
    ensures AnnounceAll(o, v, names).queue == Unfinished(AnnounceAll(o, v, names), ids + Known(o, names))
  {
    hide AnnounceAll, Known, Unfinished;
    var v', known := AnnounceAll(o, v, names), Known(o, names);
    AnnounceAllGrows(o, v, names);
    AnnounceAllLoads(o, v, names);
    UnfinishedConcat(v', ids, known);
    UnfinishedSame(v, v', ids);
    forall x | x in known
      ensures x in v'.loaded && !Finished(v', x)
    {
      assert x in v'.queue;
    }
    AllUnfinished(v', known);
  }

  lemma RequestInOrder(o: Offer, v: View, ids: seq<Uuid>, id: Uuid, idx: int)
    requires ViewFits(o, v) && id in o.packs && Exact(v) && RequestInTurn(o, v, id, idx)
    requires v.queue == Unfinished(v, ids) && forall x :: x in ids <==> x in v.loaded
    ensures Request(o, v, id, idx).queue ==
            Unfinished(Request(o, v, id, idx), WithNew(ids, id))
  {
    hide Serve, Unfinished, Load, Exact, AllSent, ChunkCount, LastMissing;
    var ready, ids' := Select(Load(o, v, id), id), WithNew(ids, id);
    ReadyExact(o, v, id);
    LoadEffects(o, v, id);
    ReadyInOrder(o, v, ids, id);
    if o.Serves(id, idx) {
      ReadyLastMissing(o, v, id, idx);
      ServeMoves(o, ready, id, idx);
      var v' := Serve(o, ready, id, idx);
      if Finished(v', id) {
        UnfinishedRemoved(ready, v', ids', id);
      } else {
        UnfinishedSame(ready, v', ids');
      }
    }
  }

  /** Selecting a pack in turn keeps the queue in order. */
  lemma ReadyInOrder(o: Offer, v: View, ids: seq<Uuid>, id: Uuid)
    requires ViewFits(o, v) && id in o.packs && Exact(v) && o.Count(id) > 0 && !Finished(v, id)
    requires v.queue == Unfinished(v, ids) && forall x :: x in ids <==> x in v.loaded
    ensures var ready := Select(Load(o, v, id), id);
            && ready.queue == Unfinished(ready, WithNew(ids, id))
            && forall x :: x in WithNew(ids, id) <==> x in ready.loaded
  {
    hide Unfinished, Load, AllSent, ChunkCount;
    var ready := Select(Load(o, v, id), id);
    LoadEffects(o, v, id);
    UnfinishedSame(v, ready, ids);
    if id !in ids {
      AllUnfinished(ready, [id]);
      UnfinishedConcat(ready, ids, [id]);
    }
  }

  // ----- A client that follows the queue -----

  /**
   A client that announces new packs and works through the queue: it asks for the current pack, or if
   there is none for the first of the queue, or if that is empty for a new pack.
   */
  predicate FollowsQueue(o: Offer, v: View, e: Event)
    requires ViewFits(o, v)
  {
    match e
    case SendPacks(ids) => NewNames(o, v.loaded.Keys, ids)
    case ChunkRequest(id, _) =>
      id in o.packs ==>
        if v.current != NIL then id == v.current
        else if v.queue != [] then id == v.queue[0]
        else id !in v.loaded && o.Count(id) > 0
    case _ => true
  }

  ghost predicate Follows(o: Offer, events: seq<Event>)
    requires o.Valid()
  {
    events == [] ||
    var before, e := events[..|events| - 1], events[|events| - 1];
    Follows(o, before) && FollowsQueue(o, Run(o, before), e)
  }

  /** A current pack is at the front. */
  predicate FrontFirst(v: View) {
    v.current == NIL || (v.queue != [] && v.queue[0] == v.current)
  }

  lemma FollowingIsOneAtATime(o: Offer, v: View, e: Event)
    requires ViewFits(o, v) && Exact(v) && FollowsQueue(o, v, e)
    ensures OneAtATime(o, v, e)
  {
    hide NewNames, ChunkCount;
    if e.ChunkRequest? && e.id in o.packs && v.current == NIL && v.queue != [] {
      assert v.queue[0] in v.queue;
      assert !Finished(v, e.id);
      assert v.loaded[e.id] != [];
    }
  }

  /**
   Such a client gets the packs in the order they came up: at every moment the completed packs,
   followed by the queue, are the packs mentioned so far, and a current pack is the first of the queue.
   */
  lemma {:induction false} DownloadsInOrder(o: Offer, events: seq<Event>)
    requires o.Valid() && Follows(o, events)
    ensures Sequential(o, events) && Exact(Run(o, events)) && FrontFirst(Run(o, events))
    ensures Run(o, events).completions + Run(o, events).queue == Mentioned(o, events)
  {
    if events == [] {
      EmptyExact(o);
    } else {
      hide Exact, Step, FollowsQueue, OneAtATime, Mentioned, FrontFirst;
      var before, e := events[..|events| - 1], events[|events| - 1];
      DownloadsInOrder(o, before);
      FollowingIsOneAtATime(o, Run(o, before), e);
      SequentialIsOrderly(o, events);
      FollowStep(o, before, e);
      assert before + [e] == events;
    }
  }

  lemma FollowStep(o: Offer, before: seq<Event>, e: Event)
    requires o.Valid() && Exact(Run(o, before)) && FrontFirst(Run(o, before)) && FollowsQueue(o, Run(o, before), e)
    requires Run(o, before).completions + Run(o, before).queue == Mentioned(o, before)
    ensures FrontFirst(Run(o, before + [e]))
    ensures Run(o, before + [e]).completions + Run(o, before + [e]).queue == Mentioned(o, before + [e])
  {
    hide Run, Mentioned, AnnounceAll, Request, Known, NewNames, Exact;
    var v := Run(o, before);
    RunSnoc(o, before, e);
    MentionedSnoc(o, before, e);
    match e
    case SendPacks(names) =>
      AnnounceAllLoads(o, v, names);
      CompletionsStay(o, v, names);
      Assoc(v.completions, v.queue, Known(o, names));
    case ChunkRequest(id, idx) =>
      if id in o.packs {
        LoadedIff(o, before, id);
        FollowRequest(o, v, id, idx, Mentioned(o, before));
      } else {
        UnknownRequest(o, v, id, idx);
      }
    case _ =>
  }

  lemma {:induction false} CompletionsStay(o: Offer, v: View, ids: seq<Uuid>)
    requires o.Valid()
    ensures AnnounceAll(o, v, ids).completions == v.completions
    decreases |ids|
  {
    if ids != [] && ids[0] in o.packs {
      CompletionsStay(o, Announce(o, v, ids[0]), ids[1..]);
    }
  }

  lemma FollowRequest(o: Offer, v: View, id: Uuid, idx: int, ids: seq<Uuid>)
    requires ViewFits(o, v) && id in o.packs && Exact(v) && FrontFirst(v) && FollowsQueue(o, v, ChunkRequest(id, idx))
    requires v.completions + v.queue == ids && (id in ids <==> id in v.loaded)
    ensures var v' := Request(o, v, id, idx);
            FrontFirst(v') && v'.completions + v'.queue == WithNew(ids, id)
  {
    hide Serve, Load, Select, Exact, Finished, ChunkCount, LastMissing, FollowsQueue;
    FollowingIsOneAtATime(o, v, ChunkRequest(id, idx));
    SequentialStep(o, v, ChunkRequest(id, idx));
    var ready := Select(Load(o, v, id), id);
    FollowReady(o, v, id, idx, ids);
    if o.Serves(id, idx) {
      ReadyLastMissing(o, v, id, idx);
      FollowServe(o, ready, id, idx);
    }
  }

  /** The pack asked for is then the current one and stands first. */
  lemma FollowReady(o: Offer, v: View, id: Uuid, idx: int, ids: seq<Uuid>)
    requires ViewFits(o, v) && id in o.packs && Exact(v) && FrontFirst(v) && FollowsQueue(o, v, ChunkRequest(id, idx))
    requires o.Count(id) > 0 && !Finished(v, id)
    requires v.completions + v.queue == ids && (id in ids <==> id in v.loaded)
    ensures var ready := Select(Load(o, v, id), id);
            && ViewFits(o, ready) && id in ready.loaded && Distinct(ready.queue) && !Finished(ready, id)
            && ready.queue != [] && ready.queue[0] == id == ready.current
            && ready.completions + ready.queue == WithNew(ids, id)
  {
    hide Load, ChunkCount, AllSent;
    ReadyExact(o, v, id);
    LoadEffects(o, v, id);
    LoadCompletionsStay(o, v, id);
    assert id in v.queue <==> id in v.loaded;
    Assoc(v.completions, v.queue, [id]);
  }

  lemma FollowServe(o: Offer, ready: View, id: Uuid, idx: nat)
    requires ViewFits(o, ready) && id in ready.loaded && idx < o.Count(id) && !Finished(ready, id)
    requires Distinct(ready.queue) && ready.queue != [] && ready.queue[0] == id == ready.current
    ensures var v' := Serve(o, ready, id, idx);
            FrontFirst(v') && v'.completions + v'.queue == ready.completions + ready.queue
  {
    hide Serve, ChunkCount, LastMissing, Finished, Advance;
    ServeMoves(o, ready, id, idx);
    if Finished(Serve(o, ready, id, idx), id) {
      AdvanceFromFront(ready);
      assert ready.queue == [id] + ready.queue[1..];
      Assoc(ready.completions, [id], ready.queue[1..]);
    }
  }

  lemma LoadCompletionsStay(o: Offer, v: View, id: Uuid)
    requires o.Valid() && id in o.packs
    ensures Load(o, v, id).completions == v.completions
  {}
}
