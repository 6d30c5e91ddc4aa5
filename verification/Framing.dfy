/** Packet frames: `Packet::encode`, and the walk over a received batch in `onRaw`. */
module Framing {
  import opened Common
  import opened Bits
  import opened Varint
  import opened BinaryIO

  /** A packet to send; `payload` is what `encodePayload` writes, or None when it refuses. */
  datatype Packet = Packet(id: nat, subClient: nat, payload: Option<Bytes>) {
    /** `subClientId` is a three-bit field and `networkId` a 32-bit one. */
    predicate Fits() {
      id < TWO_32 && subClient < 8 && (payload.Some? ==> |payload.value| < TWO_32 - 2)
    }
  }

  /** `networkId & 0x3FF | subClientId << 10`. */
  function Header(p: Packet): nat {
    BitOr(p.id % 1024, p.subClient * 1024)
  }

  function HeaderField(p: Packet): Bytes { EncVar(Header(p)) }

  function LengthField(p: Packet): Bytes
    requires p.payload.Some?
  {
    EncVar((|p.payload.value| + |HeaderField(p)|) % TWO_32)
  }

  /** A packet whose payload cannot be encoded writes nothing. */
  function EncPacket(p: Packet): Bytes {
    match p.payload
    case None => []
    case Some(payload) => LengthField(p) + HeaderField(p) + payload
  }

  function EncAll(ps: seq<Packet>): Bytes {
    if ps == [] then [] else EncPacket(ps[0]) + EncAll(ps[1..])
  }

  function Encodable(ps: seq<Packet>): (r: seq<Packet>)
    ensures forall p :: p in r <==> p in ps && p.payload.Some?
  {
    if ps == [] then []
    else (if ps[0].payload.Some? then [ps[0]] else []) + Encodable(ps[1..])
  }

  lemma {:induction false} EncAllEncodable(ps: seq<Packet>)
    ensures EncAll(Encodable(ps)) == EncAll(ps)
  {
    hide EncPacket;
    if ps != [] {
      var rest := Encodable(ps[1..]);
      EncAllEncodable(ps[1..]);
      if ps[0].payload.Some? {
        assert Encodable(ps) == [ps[0]] + rest && Encodable(ps)[1..] == rest;
      } else {
        assert EncPacket(ps[0]) == [] by { RefusedIsEmpty(ps[0]); }
        assert Encodable(ps) == rest;
      }
    }
  }

  lemma RefusedIsEmpty(p: Packet)
    requires p.payload.None?
    ensures EncPacket(p) == []
  {}

  lemma {:induction false} EncodableConcat(a: seq<Packet>, b: seq<Packet>)
    ensures Encodable(a + b) == Encodable(a) + Encodable(b)
  {
    if a == [] {
      assert a + b == b;
    } else {
      TailOfConcat(a, b);
      EncodableConcat(a[1..], b);
      Assoc(if a[0].payload.Some? then [a[0]] else [], Encodable(a[1..]), Encodable(b));
    }
  }

  lemma PowTen()
    ensures Pow2(10) == 1024
  {
    PowValues();
    PowAdd(8, 2);
    assert Pow2(2) == 4;
  }

  /** The header's parts do not overlap: its low ten bits are the id's, the three above them the sub-client. */
  lemma HeaderParts(p: Packet)
    requires p.Fits()
    ensures Header(p) < 8192
    ensures Header(p) % 1024 == p.id % 1024
    ensures Header(p) / 1024 == p.subClient
  {
    hide BitOr, Pow2;
    PowTen();
    OrDisjoint(p.id % 1024, p.subClient, 10);
  }

  method Encode(p: Packet, out: BinaryWriter) returns (ok: bool)
    modifies out
    ensures ok <==> p.payload.Some?
    ensures out.buffer == old(out.buffer) + EncPacket(p)
  {
    hide EncVar, BitOr;
    if p.payload.None? {
      return false;
    }
    var payload := p.payload.value;
    var header := BitOr(p.id % 1024, p.subClient * 1024);
    var size := GetVarSize(header);
    out.WriteVar((|payload| + size) % TWO_32);
    out.WriteVar(header);
    out.WriteBytes(payload);
    ok := true;
  }

  method EncodeAll(ps: seq<Packet>) returns (buffer: Bytes)
    ensures buffer == EncAll(ps)
  {
    hide EncPacket;
    var out := new BinaryWriter();
    for i := 0 to |ps|
      invariant out.buffer + EncAll(ps[i..]) == EncAll(ps)
    {
      label Before:
      assert ps[i..][1..] == ps[i + 1..];
      var _ := Encode(ps[i], out);
      assert out.buffer + EncAll(ps[i + 1..]) == old@Before(out.buffer) + EncAll(ps[i..]);
    }
    buffer := out.buffer;
  }

  // ----- The receiving side -----

  datatype Decoded<T> = Value(v: T) | Rejected | Threw

  /** The receiver's packet table: decoders see the bytes from the payload to the end of their reader. */
  datatype Table<!S, !T> = Table(
    known: nat -> bool,
    decode: (nat, Bytes) -> Decoded<T>,
    handle: (S, nat, nat, T) -> (S, bool))

  datatype Stop = Finished | UnknownId | DecodeError | HandlerRefused | Exception

  datatype Frame = Frame(id: nat, subClient: nat, view: Bytes)

  /** What one frame does once its header has been read. */
  function Deliver<S, T>(t: Table<S, T>, s: S, f: Frame): (S, Option<Stop>) {
    if !t.known(f.id) then (s, Some(UnknownId))
    else
      match t.decode(f.id, f.view)
      case Rejected => (s, Some(DecodeError))
      case Threw => (s, Some(Exception))
      case Value(v) =>
        var (s', ok) := t.handle(s, f.id, f.subClient, v);
        (s', if ok then None else Some(HandlerRefused))
  }

  /** Frames delivered in order until one stops the batch. */
  function DeliverAll<S, T>(t: Table<S, T>, s: S, fs: seq<Frame>): (S, Stop) {
    if fs == [] then (s, Finished)
    else
      var (s', stop) := Deliver(t, s, fs[0]);
      if stop.Some? then (s', stop.value) else DeliverAll(t, s', fs[1..])
  }

  /** The header at `start` ends in the received bytes, or they hold the five that are read at most. */
  predicate HeaderInside(batch: Bytes, start: nat) {
    ScanVar(batch, start, 5).Some? || start + 5 <= |batch|
  }

  /** How one turn of the loop ends; `inside` says whether its header stood in the received bytes. */
  datatype Turn<S> = Halt(s: S, stop: Stop, inside: bool) | Next(s: S, pos: nat, inside: bool)

  /**
   The turn at `pos` of the walk over a batch of `len` bytes at the start of `mem`. The reader of a
   packet starts after the length and is `len` bytes long, so it may see memory past the batch.
   */
  function TakeTurn<S, T>(t: Table<S, T>, s: S, mem: Bytes, len: nat, pos: nat): (r: Turn<S>)
    requires 2 * len <= |mem|
    ensures r.Next? ==> pos < len && pos < r.pos
  {
    match GetVar(mem[..len], pos, 32)
    case Throw => Halt(s, Exception, true)
    case Got(packetLength, start) =>
      var window := mem[start..start + len];
      var inside := HeaderInside(mem[..len], start);
      match GetVar(window, 0, 32)
      case Throw => Halt(s, Exception, inside)
      case Got(header, h) =>
        var (s', stop) := Deliver(t, s, Frame(header % 1024, (header / 1024) % 4, window[h..]));
        if stop.Some? then Halt(s', stop.value, inside)
        else if start + packetLength == len then Halt(s', Finished, inside)
        else Next(s', start + packetLength, inside)
  }

  function WalkFrom<S, T>(t: Table<S, T>, s: S, mem: Bytes, len: nat, pos: nat): (S, Stop)
    requires 2 * len <= |mem|
    decreases if pos <= len then len + 1 - pos else 0
  {
    match TakeTurn(t, s, mem, len, pos)
    case Halt(s', stop, _) => (s', stop)
    case Next(s', next, _) => WalkFrom(t, s', mem, len, next)
  }

  /** Every header the walk from `pos` reads stands in the received bytes. */
  predicate WalkInside<S, T>(t: Table<S, T>, s: S, mem: Bytes, len: nat, pos: nat)
    requires 2 * len <= |mem|
    decreases if pos <= len then len + 1 - pos else 0
  {
    match TakeTurn(t, s, mem, len, pos)
    case Halt(_, _, inside) => inside
    case Next(s', next, inside) => inside && WalkInside(t, s', mem, len, next)
  }

  /**
   `onRaw`. On any bytes at all it stops within `len + 1` turns: each turn moves the cursor on, and
   a cursor past the end makes the next read throw although `remaining()` wraps to a huge number.
   `inside` reports whether every header it read stood in the received bytes.
   */
  method OnRaw<S, T>(t: Table<S, T>, s0: S, mem: Bytes, len: nat)
    returns (s: S, stop: Stop, turns: nat, inside: bool)
    requires 2 * len <= |mem| < TWO_64 / 4
    ensures (s, stop) == WalkFrom(t, s0, mem, len, 0)
    ensures turns <= len + 1
    ensures inside <==> WalkInside(t, s0, mem, len, 0)
  {
    hide TakeTurn;
    s, turns, inside := s0, 0, true;
    var input := new BinaryReader(mem[..len]);
    while true
      invariant input.Valid() && input.data == mem[..len] && input.offset < TWO_64 / 2 - TWO_32
      invariant turns <= input.offset && turns <= len
      invariant WalkFrom(t, s0, mem, len, 0) == WalkFrom(t, s, mem, len, input.offset)
      invariant WalkInside(t, s0, mem, len, 0) <==> inside && WalkInside(t, s, mem, len, input.offset)
      decreases if input.offset <= len then len + 1 - input.offset else 0
    {
      turns := turns + 1;
      var turn := DoTurn(t, s, mem, len, input);
      s, inside := turn.s, inside && turn.inside;
      if turn.Halt? {
        stop := turn.stop;
        return;
      }
    }
  }

  /** The body of the loop. */
  method DoTurn<S, T>(t: Table<S, T>, s: S, mem: Bytes, len: nat, input: BinaryReader) returns (turn: Turn<S>)
    requires 2 * len <= |mem| < TWO_64 / 4
    requires input.Valid() && input.data == mem[..len] && input.offset < TWO_64 / 2 - TWO_32
    modifies input
    ensures turn == TakeTurn(t, s, mem, len, old(input.offset))
    ensures turn.Next? ==> input.offset == turn.pos < TWO_64 / 2 - TWO_32 && input.Valid()
  {
    hide GetVar, Deliver, HeaderInside;
    VarBounds(mem[..len], input.offset, 32);
    var packetLength := input.ReadVar(32);
    if packetLength.None? {
      return Halt(s, Exception, true);
    }
    var inside := HeaderInside(mem[..len], input.offset);
    var packetBuffer := new BinaryReader(mem[input.offset..input.offset + len]);
    input.offset := input.offset + packetLength.value;
    VarBounds(packetBuffer.data, 0, 32);
    var packetHeader := packetBuffer.ReadVar(32);
    if packetHeader.None? {
      return Halt(s, Exception, inside);
    }
    var frame := Frame(packetHeader.value % 1024, (packetHeader.value / 1024) % 4,
                       packetBuffer.data[packetBuffer.offset..]);
    var (s', halt) := Deliver(t, s, frame);
    if halt.Some? {
      return Halt(s', halt.value, inside);
    }
    if input.Remaining() == 0 {
      return Halt(s', Finished, inside);
    }
    return Next(s', input.offset, inside);
  }

  lemma VarBounds(data: Bytes, pos: nat, w: nat)
    ensures GetVar(data, pos, w).Got? ==> pos < GetVar(data, pos, w).next <= |data|
  {}

  // ----- The round trip -----

  predicate AllFit(ps: seq<Packet>) {
    forall p :: p in ps ==> p.Fits() && p.payload.Some?
  }

  lemma FieldSizes(p: Packet)
    requires p.Fits() && p.payload.Some?
    ensures 1 <= |HeaderField(p)| <= 2 && 1 <= |LengthField(p)|
    ensures |EncPacket(p)| == |LengthField(p)| + |HeaderField(p)| + |p.payload.value|
  {
    HeaderParts(p);
    HeaderShort(Header(p));
  }

  /** What the reader of the packet encoded at `pos` offers to the payload decoder. */
  function ViewOf(p: Packet, mem: Bytes, len: nat, pos: nat): Bytes
    requires p.payload.Some? && pos + |EncPacket(p)| <= len && 2 * len <= |mem|
  {
    var start := pos + |LengthField(p)|;
    mem[start..start + len][|HeaderField(p)|..]
  }

  /** The frames of packets encoded from `pos` on: id, sub-client modulo four, payload and what follows it. */
  function Frames(ps: seq<Packet>, mem: Bytes, len: nat, pos: nat): seq<Frame>
    requires 2 * len <= |mem| && AllFit(ps)
    requires pos + |EncAll(ps)| == len
  {
    if ps == [] then []
    else
      var p := ps[0];
      [Frame(p.id % 1024, p.subClient % 4, ViewOf(p, mem, len, pos))]
      + Frames(ps[1..], mem, len, pos + |EncPacket(p)|)
  }

  lemma LengthReads(p: Packet, mem: Bytes, len: nat, pos: nat)
    requires p.Fits() && p.payload.Some? && At(mem, pos, LengthField(p))
    requires pos + |LengthField(p)| <= len <= |mem|
    ensures GetVar(mem[..len], pos, 32) == Got(|p.payload.value| + |HeaderField(p)|, pos + |LengthField(p)|)
  {
    hide EncVar, GetVar, HeaderField;
    FieldSizes(p);
    AtWithin(mem, 0, len, pos, LengthField(p));
    assert mem[0..len] == mem[..len];
    VarRoundTrip(|p.payload.value| + |HeaderField(p)|, 32, mem[..len], pos);
  }

  lemma HeaderReads(p: Packet, mem: Bytes, len: nat, start: nat)
    requires p.Fits() && At(mem, start, HeaderField(p))
    requires |HeaderField(p)| <= len && start + len <= |mem|
    ensures GetVar(mem[start..start + len], 0, 32) == Got(Header(p), |HeaderField(p)|)
  {
    hide EncVar, GetVar, Header;
    HeaderParts(p);
    AtWithin(mem, start, start + len, start, HeaderField(p));
    VarRoundTrip(Header(p), 32, mem[start..start + len], 0);
  }

  /** The length is read back, and the header is read back from the packet's own reader. */
  lemma FrameReads(p: Packet, mem: Bytes, len: nat, pos: nat)
    requires p.Fits() && p.payload.Some? && At(mem, pos, EncPacket(p))
    requires pos + |EncPacket(p)| <= len && 2 * len <= |mem|
    ensures var start := pos + |LengthField(p)|;
            && GetVar(mem[..len], pos, 32) == Got(|p.payload.value| + |HeaderField(p)|, start)
            && start <= len
            && GetVar(mem[start..start + len], 0, 32) == Got(Header(p), |HeaderField(p)|)
            && start + (|p.payload.value| + |HeaderField(p)|) == pos + |EncPacket(p)|
  {
    hide GetVar, Header, HeaderField, LengthField;
    AtSplit(mem, pos, LengthField(p) + HeaderField(p), p.payload.value);
    AtSplit(mem, pos, LengthField(p), HeaderField(p));
    LengthReads(p, mem, len, pos);
    HeaderReads(p, mem, len, pos + |LengthField(p)|);
  }

  lemma AtWithin(mem: Bytes, lo: nat, hi: nat, pos: nat, part: Bytes)
    requires lo <= pos && pos + |part| <= hi <= |mem| && At(mem, pos, part)
    ensures At(mem[lo..hi], pos - lo, part)
  {
    AtIndex(mem, pos, part);
    forall k | 0 <= k < |part|
      ensures mem[lo..hi][pos - lo + k] == part[k]
    {
      assert mem[lo..hi][pos - lo + k] == mem[pos + k];
    }
    AtFromIndex(mem[lo..hi], pos - lo, part);
  }

  lemma ViewHasPayload(p: Packet, mem: Bytes, len: nat, pos: nat)
    requires p.Fits() && p.payload.Some? && At(mem, pos, EncPacket(p))
    requires pos + |EncPacket(p)| <= len && 2 * len <= |mem|
    ensures p.payload.value <= ViewOf(p, mem, len, pos)
  {
    hide HeaderField, LengthField, At;
    var payload, h, size := p.payload.value, HeaderField(p), LengthField(p);
    AtSplit(mem, pos, size + h, payload);
    var start := pos + |size|;
    AtWithin(mem, start, start + len, start + |h|, payload);
    AtIsPrefix(mem[start..start + len], |h|, payload);
  }

  lemma AtIsPrefix(mem: Bytes, pos: nat, part: Bytes)
    requires At(mem, pos, part)
    ensures pos <= |mem| && part <= mem[pos..]
  {
    assert mem[pos..][..|part|] == mem[pos..pos + |part|];
  }

  lemma HeaderShort(header: nat)
    requires header < 8192
    ensures |EncVar(header)| <= 2
  {
    assert header / 128 < 128;
  }

  /**
   Walking encoded packets delivers one frame per packet, in order, resynchronising at each frame
   boundary whatever the decoders did, and ends exactly at the end of the batch.
   */
  lemma {:induction false} WalkDelivers<S, T>(t: Table<S, T>, s: S, ps: seq<Packet>, mem: Bytes, len: nat, pos: nat)
    requires ps != [] && AllFit(ps) && At(mem, pos, EncAll(ps))
    requires pos + |EncAll(ps)| == len && 2 * len <= |mem|
    ensures WalkFrom(t, s, mem, len, pos) == DeliverAll(t, s, Frames(ps, mem, len, pos))
    decreases |ps|
  {
    hide TakeTurn, EncPacket, Deliver, ViewOf;
    var p, rest := ps[0], ps[1..];
    FramesFirst(ps, mem, len, pos);
    AtSplit(mem, pos, EncPacket(p), EncAll(rest));
    FrameTurn(t, s, p, mem, len, pos);
    var next := pos + |EncPacket(p)|;
    if rest == [] {
      NoFrames(mem, len, next);
    } else {
      assert next < len by { NotEmpty(rest); }
      WalkDelivers(t, Deliver(t, s, Frames(ps, mem, len, pos)[0]).0, rest, mem, len, next);
    }
  }

  /** The turn at an encoded packet delivers its frame and moves on to what follows it. */
  lemma FrameTurn<S, T>(t: Table<S, T>, s: S, p: Packet, mem: Bytes, len: nat, pos: nat)
    requires p.Fits() && p.payload.Some? && At(mem, pos, EncPacket(p))
    requires pos + |EncPacket(p)| <= len && 2 * len <= |mem|
    ensures var (s', stop) := Deliver(t, s, Frame(p.id % 1024, p.subClient % 4, ViewOf(p, mem, len, pos)));
            var turn := TakeTurn(t, s, mem, len, pos);
            var next := pos + |EncPacket(p)|;
            && turn.s == s'
            && (if stop.Some? then turn.Halt? && turn.stop == stop.value
                else if next == len then turn.Halt? && turn.stop == Finished
                else turn.Next? && turn.pos == next)
  {
    hide GetVar, Header, HeaderField, LengthField, EncPacket, Deliver, HeaderInside;
    FrameReads(p, mem, len, pos);
    ViewIsWindow(p, mem, len, pos);
    HeaderParts(p);
  }

  lemma ViewIsWindow(p: Packet, mem: Bytes, len: nat, pos: nat)
    requires p.payload.Some? && pos + |EncPacket(p)| <= len && 2 * len <= |mem|
    ensures pos + |LengthField(p)| + |HeaderField(p)| <= len
    ensures ViewOf(p, mem, len, pos) == mem[pos + |LengthField(p)|..pos + |LengthField(p)| + len][|HeaderField(p)|..]
  {}

  lemma NotEmpty(ps: seq<Packet>)
    requires ps != [] && AllFit(ps)
    ensures |EncAll(ps)| >= 2
  {
    assert ps[0] in ps;
    FieldSizes(ps[0]);
  }

  /** The decoder of this packet looks at its payload only, whatever follows it. */
  ghost predicate Delimited<T>(decode: (nat, Bytes) -> Decoded<T>, p: Packet)
    requires p.payload.Some?
  {
    forall view :: p.payload.value <= view ==> decode(p.id % 1024, view) == decode(p.id % 1024, p.payload.value)
  }

  function OwnFrames(ps: seq<Packet>): seq<Frame>
    requires AllFit(ps)
  {
    if ps == [] then []
    else [Frame(ps[0].id % 1024, ps[0].subClient % 4, ps[0].payload.value)] + OwnFrames(ps[1..])
  }

  lemma DeliverSame<S, T>(t: Table<S, T>, s: S, p: Packet, view: Bytes)
    requires p.payload.Some? && Delimited(t.decode, p) && p.payload.value <= view
    ensures Deliver(t, s, Frame(p.id % 1024, p.subClient % 4, view)) ==
            Deliver(t, s, Frame(p.id % 1024, p.subClient % 4, p.payload.value))
  {}

  lemma DeliverAlike<S, T>(t: Table<S, T>, s: S, fs: seq<Frame>, gs: seq<Frame>)
    requires fs != [] && gs != [] && Deliver(t, s, fs[0]) == Deliver(t, s, gs[0])
    requires DeliverAll(t, Deliver(t, s, fs[0]).0, fs[1..]) == DeliverAll(t, Deliver(t, s, fs[0]).0, gs[1..])
    ensures DeliverAll(t, s, fs) == DeliverAll(t, s, gs)
  {
    hide Deliver;
  }

  lemma FramesFirst(ps: seq<Packet>, mem: Bytes, len: nat, pos: nat)
    requires ps != [] && AllFit(ps) && pos + |EncAll(ps)| == len && 2 * len <= |mem|
    ensures var p, rest, fs, own := ps[0], ps[1..], Frames(ps, mem, len, pos), OwnFrames(ps);
            && p.Fits() && p.payload.Some? && AllFit(rest)
            && EncAll(ps) == EncPacket(p) + EncAll(rest)
            && fs != [] && own != []
            && fs[0] == Frame(p.id % 1024, p.subClient % 4, ViewOf(p, mem, len, pos))
            && own[0] == Frame(p.id % 1024, p.subClient % 4, p.payload.value)
            && fs[1..] == Frames(rest, mem, len, pos + |EncPacket(p)|)
            && own[1..] == OwnFrames(rest)
  {
    hide EncPacket, ViewOf;
    assert ps[0] in ps;
  }

  lemma NoFrames(mem: Bytes, len: nat, pos: nat)
    ensures EncAll([]) == [] && OwnFrames([]) == []
    ensures pos == len && 2 * len <= |mem| ==> Frames([], mem, len, pos) == []
  {}

  ghost predicate AllDelimited<T>(decode: (nat, Bytes) -> Decoded<T>, ps: seq<Packet>) {
    forall p :: p in ps && p.payload.Some? ==> Delimited(decode, p)
  }

  lemma FirstDelimited<S, T>(t: Table<S, T>, ps: seq<Packet>)
    requires ps != [] && AllDelimited(t.decode, ps)
    ensures ps[0].payload.Some? ==> Delimited(t.decode, ps[0])
    ensures AllDelimited(t.decode, ps[1..])
  {
    hide Delimited;
    assert ps[0] in ps;
  }

  /** With delimited decoders the frames are the packets: nothing outside a frame has any effect. */
  lemma {:induction false} DelimitedFrames<S, T>(t: Table<S, T>, s: S, ps: seq<Packet>, mem: Bytes, len: nat, pos: nat)
    requires AllFit(ps) && At(mem, pos, EncAll(ps))
    requires pos + |EncAll(ps)| == len && 2 * len <= |mem|
    requires AllDelimited(t.decode, ps)
    ensures DeliverAll(t, s, Frames(ps, mem, len, pos)) == DeliverAll(t, s, OwnFrames(ps))
    decreases |ps|
  {
    hide *;
    if ps == [] {
      NoFrames(mem, len, pos);
    } else {
      FramesFirst(ps, mem, len, pos);
      var p, rest := ps[0], ps[1..];
      FirstDelimited(t, ps);
      AtSplit(mem, pos, EncPacket(p), EncAll(rest));
      var next := pos + |EncPacket(p)|;
      ViewHasPayload(p, mem, len, pos);
      DeliverSame(t, s, p, ViewOf(p, mem, len, pos));
      var fs, own := Frames(ps, mem, len, pos), OwnFrames(ps);
      DelimitedFrames(t, Deliver(t, s, fs[0]).0, rest, mem, len, next);
      DeliverAlike(t, s, fs, own);
    }
  }

  /** A batch of encoded packets, followed by any memory, is received packet by packet. */
  lemma BatchRoundTrip<S, T>(t: Table<S, T>, s: S, ps: seq<Packet>, after: Bytes)
    requires Encodable(ps) != [] && AllFit(Encodable(ps))
    requires AllDelimited(t.decode, ps)
    requires |after| >= |EncAll(ps)|
    ensures WalkFrom(t, s, EncAll(ps) + after, |EncAll(ps)|, 0) == DeliverAll(t, s, OwnFrames(Encodable(ps)))
  {
    hide EncAll, WalkFrom, Frames, OwnFrames, DeliverAll, Delimited;
    var es := Encodable(ps);
    EncAllEncodable(ps);
    var mem := EncAll(es) + after;
    assert At(mem, 0, EncAll(es)) by { assert mem[0..|EncAll(es)|] == EncAll(es); }
    WalkDelivers(t, s, es, mem, |EncAll(es)|, 0);
    DelimitedFrames(t, s, es, mem, |EncAll(es)|, 0);
  }
}
