/** How a walk over a batch ends: at the first packet that is unknown, undecodable or refused, or at its end. */
module Stops {
  import opened Common
  import opened Varint
  import opened Framing
  import opened OverRead
  import opened Wire

  /** Every packet is known, decoded and accepted by its handler, one after the other. */
  predicate Accepted<S, T>(t: Table<S, T>, s: S, ps: seq<Packet>)
    requires forall p :: p in ps ==> p.payload.Some?
    decreases |ps|
  {
    ps == [] ||
    (assert ps[0] in ps;
     var id, decoded := ps[0].id % 1024, t.decode(ps[0].id % 1024, ps[0].payload.value);
     && t.known(id) && decoded.Value?
     && t.handle(s, id, ps[0].subClient % 4, decoded.v).1
     && Accepted(t, t.handle(s, id, ps[0].subClient % 4, decoded.v).0, ps[1..]))
  }

  /** What the handlers of accepted packets leave. */
  function Handled<S, T>(t: Table<S, T>, s: S, ps: seq<Packet>): S
    requires (forall p :: p in ps ==> p.payload.Some?) && Accepted(t, s, ps)
    decreases |ps|
  {
    if ps == [] then s
    else
      assert ps[0] in ps;
      var id, sub := ps[0].id % 1024, ps[0].subClient % 4;
      Handled(t, t.handle(s, id, sub, t.decode(id, ps[0].payload.value).v).0, ps[1..])
  }

  /** The first packet that ends the batch, and how: the state so far, or what a refusing handler leaves. */
  function Ending<S, T>(t: Table<S, T>, s: S, p: Packet): Option<(S, Stop)>
    requires p.payload.Some?
  {
    var id, sub := p.id % 1024, p.subClient % 4;
    if !t.known(id) then Some((s, UnknownId))
    else if t.decode(id, p.payload.value) == Rejected then Some((s, DecodeError))
    else if t.decode(id, p.payload.value) == Threw then Some((s, Exception))
    else
      var (left, ok) := t.handle(s, id, sub, t.decode(id, p.payload.value).v);
      if ok then None else Some((left, HandlerRefused))
  }

  lemma {:induction false} AcceptedFrames<S, T>(t: Table<S, T>, s: S, ps: seq<Packet>, rest: seq<Packet>)
    requires AllFit(ps + rest) && (forall p :: p in ps ==> p.payload.Some?) && Accepted(t, s, ps)
    ensures AllFit(rest)
    ensures DeliverAll(t, s, OwnFrames(ps + rest)) == DeliverAll(t, Handled(t, s, ps), OwnFrames(rest))
    decreases |ps|
  {
    forall p | p in rest
      ensures p.Fits() && p.payload.Some?
    {
      assert p in ps + rest;
    }
    if ps == [] {
      assert ps + rest == rest;
    } else {
      TailOfConcat(ps, rest);
      var all := ps + rest;
      var frames := OwnFrames(all);
      assert ps[0] in all && frames[1..] == OwnFrames(all[1..]);
      var id, sub := ps[0].id % 1024, ps[0].subClient % 4;
      var s' := t.handle(s, id, sub, t.decode(id, ps[0].payload.value).v).0;
      AcceptedFrames(t, s', ps[1..], rest);
    }
  }

  lemma EndingStops<S, T>(t: Table<S, T>, s: S, p: Packet, later: seq<Packet>)
    requires p.payload.Some? && AllFit([p] + later) && Ending(t, s, p).Some?
    ensures DeliverAll(t, s, OwnFrames([p] + later)) == Ending(t, s, p).value
  {
    assert ([p] + later)[1..] == later;
    assert DeliverAll(t, s, OwnFrames([p] + later)) ==
           var (s', stop) := Deliver(t, s, OwnFrames([p] + later)[0]); (s', stop.value);
  }

  /** The frames of a batch: `p` ends it after `before`, and nothing later has any effect. */
  lemma FramesStopAt<S, T>(t: Table<S, T>, s: S, before: seq<Packet>, p: Packet, later: seq<Packet>)
    requires AllFit(before + ([p] + later)) && (forall q :: q in before ==> q.payload.Some?) && p.payload.Some?
    requires Accepted(t, s, before) && Ending(t, Handled(t, s, before), p).Some?
    ensures DeliverAll(t, s, OwnFrames(before + ([p] + later))) == Ending(t, Handled(t, s, before), p).value
  {
    hide OwnFrames, DeliverAll, Ending, Accepted, Handled;
    AcceptedFrames(t, s, before, [p] + later);
    EndingStops(t, Handled(t, s, before), p, later);
  }

  lemma FramesFinish<S, T>(t: Table<S, T>, s: S, ps: seq<Packet>)
    requires AllFit(ps) && Accepted(t, s, ps)
    ensures DeliverAll(t, s, OwnFrames(ps)) == (Handled(t, s, ps), Finished)
  {
    hide Accepted, Handled;
    assert ps + [] == ps;
    AcceptedFrames(t, s, ps, []);
  }

  /**
   The walk over encoded packets ends at the first that is unknown, undecodable or refused, in the
   state the packets before it leave and its own handler if it has run; no later packet has any effect.
   */
  lemma WalkStopsAt<S, T>(t: Table<S, T>, s: S, before: seq<Packet>, p: Packet, later: seq<Packet>, after: Bytes)
    requires var ps := before + ([p] + later);
             AllFit(ps) && AllDelimited(t.decode, ps) && |after| >= |EncAll(ps)|
    requires (forall q :: q in before ==> q.payload.Some?) && p.payload.Some?
    requires Accepted(t, s, before) && Ending(t, Handled(t, s, before), p).Some?
    ensures var ps := before + ([p] + later);
            WalkFrom(t, s, EncAll(ps) + after, |EncAll(ps)|, 0) == Ending(t, Handled(t, s, before), p).value
  {
    hide WalkFrom, DeliverAll, OwnFrames, EncAll, Accepted, Handled, Ending, Delimited;
    var ps := before + ([p] + later);
    assert ps[|before|] == p;
    AllEncodable(ps);
    BatchRoundTrip(t, s, ps, after);
    FramesStopAt(t, s, before, p, later);
  }

  /** If there is none, it ends at the end of the batch. */
  lemma WalkFinishes<S, T>(t: Table<S, T>, s: S, ps: seq<Packet>, after: Bytes)
    requires ps != [] && AllFit(ps) && AllDelimited(t.decode, ps) && |after| >= |EncAll(ps)|
    requires Accepted(t, s, ps)
    ensures WalkFrom(t, s, EncAll(ps) + after, |EncAll(ps)|, 0) == (Handled(t, s, ps), Finished)
  {
    hide WalkFrom, DeliverAll, OwnFrames, EncAll, Accepted, Handled, Delimited;
    AllEncodable(ps);
    BatchRoundTrip(t, s, ps, after);
    FramesFinish(t, s, ps);
  }

  lemma {:induction false} AllEncodable(ps: seq<Packet>)
    requires AllFit(ps)
    ensures Encodable(ps) == ps
  {
    if ps != [] {
      assert ps[0] in ps && ps == [ps[0]] + ps[1..];
      AllEncodable(ps[1..]);
    }
  }

  /** Through envelope, cipher and router: a refused packet ends its batch for the session too. */
  lemma RefusedBatch<T, S>(
      w: World<T>, h: Handler<T, S>, s: Server, p: Peer<S>, i: nat,
      before: seq<Packet>, q: Packet, later: seq<Packet>)
    requires var ps := before + ([q] + later);
             && w.Lawful() && InSync(s, p) && AllFit(ps) && (forall x :: x in ps ==> OwnPacket(w, x))
             && Recoverable(s.compression, s.algorithm, |EncAll(ps)|)
    requires (forall x :: x in before ==> x.payload.Some?) && q.payload.Some?
    requires Accepted(w.Table(h), p.inbox, before)
    requires Ending(w.Table(h), Handled(w.Table(h), p.inbox, before), q).Some?
    ensures var s' := Transmit(w, s, EncAll(before + ([q] + later)));
            var (inbox, stop) := Ending(w.Table(h), Handled(w.Table(h), p.inbox, before), q).value;
            && |s'.transport| == |s.transport| + 1 && s'.transport[|s.transport|] != []
            && Receive(w, h, p, i, s'.transport[|s.transport|]) ==
               (Peer(p.encryption, s'.channel, inbox), Walked(stop))
  {
    hide Receive, Transmit, DeliverAll, OwnFrames, EncAll, Accepted, Handled, Ending, OwnPacket;
    var ps := before + ([q] + later);
    assert ps[|before|] == q;
    AllEncodable(ps);
    BatchHandled(w, h, s, p, i, ps);
    FramesStopAt(w.Table(h), p.inbox, before, q, later);
  }

  // ----- Lengths that do not add up -----

  /** The length fields, followed from `pos`, lead exactly to the end of the batch. */
  predicate Lands(b: Bytes, pos: nat)
    decreases if pos <= |b| then |b| + 1 - pos else 0
  {
    match GetVar(b, pos, 32)
    case Throw => false
    case Got(packetLength, start) =>
      HeaderOf(b, start).Got? && (start + packetLength == |b| || Lands(b, start + packetLength))
  }

  /**
   A receiver that accepts every packet finishes a batch iff its length fields lead exactly to its end;
   if they lead past it, or a length or header cannot be read, the walk ends with an exception.
   */
  lemma {:induction false} FinishesIffLands(s: seq<(nat, nat)>, b: Bytes, x: Bytes, pos: nat)
    requires HeadersInside(b, pos) && |x| >= |b|
    ensures WalkFrom(Notes(), s, b + x, |b|, pos).1 == if Lands(b, pos) then Finished else Exception
    decreases if pos <= |b| then |b| + 1 - pos else 0
  {
    hide GetVar, HeaderInside, HeaderOf;
    BatchIs(b, x);
    VarBounds(b, pos, 32);
    var length := GetVar(b, pos, 32);
    if length.Got? {
      var start := length.next;
      InsideReads(b, x, start);
      var header := HeaderOf(b, start);
      if header.Got? && start + length.value != |b| {
        FinishesIffLands(s + [(header.value % 1024, (header.value / 1024) % 4)], b, x, start + length.value);
      }
    }
  }
}
