/**
 What `onRaw` takes from the memory behind a received batch: the reader of a packet is as long as the
 whole batch, so headers and payload decoders can be shown bytes that were never received.
 */
module OverRead {
  import opened Common
  import opened Varint
  import opened Framing

  // ----- Headers -----

  /** A batch of one byte, a length: the byte behind it decides how the walk ends. */
  lemma OneByteBatch<S, T>(t: Table<S, T>, s: S, n: byte, h: byte)
    requires n < 128 && !t.known(h)
    ensures WalkFrom(t, s, [n, h], 1, 0) == (s, if h < 128 then UnknownId else Exception)
    ensures !WalkInside(t, s, [n, h], 1, 0)
  {
    hide GetVar;
    var mem: Bytes := [n, h];
    assert mem[..1] == [n] && mem[1..2] == [h];
    ReadOne(n);
    ReadOne(h);
    assert ScanVar([n], 1, 5) == None;
  }

  lemma ReadOne(h: byte)
    ensures GetVar([h], 0, 32) == if h < 128 then Got(h, 1) else Throw
  {
    assert ScanVar([h], 1, 4) == None;
    assert [h][0..1] == [h] && [h][1..] == [];
    assert Base128([h]) == h % 128;
  }

  /** A varint is read from its own bytes: where they agree, so do the reads. */
  lemma {:induction false} ScanAgrees(d: Bytes, p: nat, e: Bytes, q: nat, m: nat, max: nat)
    requires p + m <= |d| && q + m <= |e| && d[p..p + m] == e[q..q + m]
    ensures m >= max ==> ScanVar(d, p, max) == ScanVar(e, q, max)
    ensures ScanVar(d, p, max).Some? && ScanVar(d, p, max).value <= m ==> ScanVar(e, q, max) == ScanVar(d, p, max)
    decreases max
  {
    if max > 0 && m > 0 {
      assert d[p] == d[p..p + m][0] == e[q..q + m][0] == e[q];
      assert d[p + 1..p + m] == d[p..p + m][1..] && e[q + 1..q + m] == e[q..q + m][1..];
      ScanAgrees(d, p + 1, e, q + 1, m - 1, max - 1);
    }
  }

  /** The window of a turn: the rest of the batch and as much of what follows as the cursor has moved. */
  lemma WindowIs(b: Bytes, x: Bytes, start: nat)
    requires start <= |b| <= |x|
    ensures (b + x)[start..start + |b|] == b[start..] + x[..start]
    ensures (b + x)[..|b|] == b
  {}

  /** What a header inside the batch is read as. */
  function HeaderOf(b: Bytes, start: nat): Read<nat>
    requires start <= |b|
  {
    match ScanVar(b, start, 5)
    case None => Throw
    case Some(n) => Got(Truncate(Base128(b[start..start + n]), 32), n)
  }

  lemma InsideReads(b: Bytes, x: Bytes, start: nat)
    requires start <= |b| <= |x| && HeaderInside(b, start)
    ensures GetVar((b + x)[start..start + |b|], 0, 32) == HeaderOf(b, start)
  {
    hide Base128;
    WindowIs(b, x, start);
    var window := b[start..] + x[..start];
    assert window[0..|b| - start] == b[start..|b|];
    ScanAgrees(b, start, window, 0, |b| - start, 5);
    var scan := ScanVar(b, start, 5);
    if scan.Some? {
      assert window[0..scan.value] == b[start..start + scan.value];
    }
  }

  function Zeros(n: nat): (r: Bytes)
    ensures |r| == n && forall k :: 0 <= k < n ==> r[k] == 0
  {
    seq(n, _ => 0)
  }

  function Continued(n: nat): (r: Bytes)
    ensures |r| == n && forall k :: 0 <= k < n ==> r[k] == 128
  {
    seq(n, _ => 128)
  }

  lemma {:induction false} Unfinished(b: Bytes, start: nat, max: nat)
    requires start <= |b| < start + max && ScanVar(b, start, max) == None
    ensures forall j :: start <= j < |b| ==> b[j] >= 128
    decreases max
  {
    if start < |b| {
      Unfinished(b, start + 1, max - 1);
    }
  }

  /** A header that leaves the batch is read or not read as the memory behind it has it. */
  lemma OutsideReads(b: Bytes, start: nat)
    requires 1 <= start <= |b| && !HeaderInside(b, start)
    ensures GetVar((b + Zeros(|b|))[start..start + |b|], 0, 32).Got?
    ensures GetVar((b + Continued(|b|))[start..start + |b|], 0, 32) == Throw
  {
    var m := |b| - start;
    Unfinished(b, start, 5);
    WindowIs(b, Zeros(|b|), start);
    WindowIs(b, Continued(|b|), start);
    var zeros, ones := b[start..] + Zeros(|b|)[..start], b[start..] + Continued(|b|)[..start];
    assert forall k :: 0 <= k < m ==> zeros[k] == b[start..][k] >= 128;
    assert zeros[m] == 0;
    ScanVarCases(zeros, 0, m, 5);
    assert forall k :: 0 <= k < |b| ==> ones[k] >= 128;
    ScanVarCases(ones, 0, if |b| < 5 then |b| else 5, 5);
  }

  /** A turn's header does not depend on what follows the batch if and only if it stands inside. */
  lemma HeaderInsideIff(b: Bytes, start: nat)
    requires 1 <= start <= |b|
    ensures HeaderInside(b, start) <==>
            forall x: Bytes, y: Bytes :: |x| >= |b| && |y| >= |b| ==>
              GetVar((b + x)[start..start + |b|], 0, 32) == GetVar((b + y)[start..start + |b|], 0, 32)
  {
    hide GetVar, HeaderInside;
    if HeaderInside(b, start) {
      forall x: Bytes, y: Bytes | |x| >= |b| && |y| >= |b|
        ensures GetVar((b + x)[start..start + |b|], 0, 32) == GetVar((b + y)[start..start + |b|], 0, 32)
      {
        InsideReads(b, x, start);
        InsideReads(b, y, start);
      }
    } else {
      OutsideReads(b, start);
      var x, y := Zeros(|b|), Continued(|b|);
      assert GetVar((b + x)[start..start + |b|], 0, 32) != GetVar((b + y)[start..start + |b|], 0, 32);
    }
  }

  // ----- The turns of a walk -----

  /** Every header of the batch from `pos` on stands inside it, as its length fields chain them. */
  predicate HeadersInside(b: Bytes, pos: nat)
    decreases if pos <= |b| then |b| + 1 - pos else 0
  {
    match GetVar(b, pos, 32)
    case Throw => true
    case Got(packetLength, start) =>
      && HeaderInside(b, start)
      && (HeaderOf(b, start).Throw? || start + packetLength == |b| || HeadersInside(b, start + packetLength))
  }

  /** The walk from `pos` comes to the same whatever follows the batch. */
  ghost predicate Independent<S(!new), T>(t: Table<S, T>, s: S, b: Bytes, pos: nat) {
    forall x: Bytes, y: Bytes :: |x| >= |b| && |y| >= |b| ==>
      WalkFrom(t, s, b + x, |b|, pos) == WalkFrom(t, s, b + y, |b|, pos)
  }

  /** No decoder looks at a byte behind the batch. */
  ghost predicate StayInside<S, T(!new)>(t: Table<S, T>, b: Bytes) {
    forall id: nat, k: nat, u: Bytes, v: Bytes :: k <= |b| && |u| == |v| ==>
      t.decode(id, b[k..] + u) == t.decode(id, b[k..] + v)
  }

  /** Then the walk does not either, and neither does whether its headers stand inside. */
  lemma {:induction false} InsideIsEnough<S, T(!new)>(t: Table<S, T>, s: S, b: Bytes, x: Bytes, y: Bytes, pos: nat)
    requires StayInside(t, b) && |x| >= |b| && |y| >= |b|
    requires WalkInside(t, s, b + x, |b|, pos)
    ensures WalkFrom(t, s, b + y, |b|, pos) == WalkFrom(t, s, b + x, |b|, pos)
    ensures WalkInside(t, s, b + y, |b|, pos)
    decreases if pos <= |b| then |b| + 1 - pos else 0
  {
    hide GetVar, HeaderInside, Deliver, StayInside;
    BatchIs(b, x);
    BatchIs(b, y);
    VarBounds(b, pos, 32);
    var length := GetVar(b, pos, 32);
    if length.Got? {
      var start := length.next;
      InsideReads(b, x, start);
      InsideReads(b, y, start);
      var header := HeaderOf(b, start);
      if header.Got? {
        var id, sub := header.value % 1024, (header.value / 1024) % 4;
        ViewStays(t, s, b, x, y, start, header.next, id, sub);
        var (s', stop) := Deliver(t, s, Frame(id, sub, (b + x)[start..start + |b|][header.next..]));
        if stop.None? && start + length.value != |b| {
          InsideIsEnough(t, s', b, x, y, start + length.value);
        }
      }
    }
  }

  lemma BatchIs(b: Bytes, x: Bytes)
    ensures (b + x)[..|b|] == b
  {}

  lemma ViewStays<S, T(!new)>(
      t: Table<S, T>, s: S, b: Bytes, x: Bytes, y: Bytes, start: nat, h: nat, id: nat, sub: nat)
    requires StayInside(t, b) && |x| >= |b| && |y| >= |b| && start <= |b| && start + h <= |b|
    ensures Deliver(t, s, Frame(id, sub, (b + x)[start..start + |b|][h..])) ==
            Deliver(t, s, Frame(id, sub, (b + y)[start..start + |b|][h..]))
  {
    ViewSplits(b, x, start, h);
    ViewSplits(b, y, start, h);
  }

  lemma ViewSplits(b: Bytes, x: Bytes, start: nat, h: nat)
    requires |x| >= |b| && start + h <= |b|
    ensures (b + x)[start..start + |b|][h..] == b[start + h..] + x[..start]
  {
    WindowIs(b, x, start);
    var mine, foreign := b[start..], x[..start];
    assert (mine + foreign)[h..] == mine[h..] + foreign;
    assert mine[h..] == b[start + h..];
  }

  /** A receiver that notes the headers it reads and nothing else. */
  function Notes(): Table<seq<(nat, nat)>, ()> {
    Table(id => true, (id, view) => Value(()), (s: seq<(nat, nat)>, id, sub, v) => (s + [(id, sub)], true))
  }

  /**
   Lifted to the turns: the headers a walk reads, and how it ends, do not depend on what follows the
   batch if and only if every header the length fields lead to stands inside the batch.
   */
  lemma {:induction false} HeadersInsideIff(s: seq<(nat, nat)>, b: Bytes, pos: nat)
    ensures HeadersInside(b, pos) <==> Independent(Notes(), s, b, pos)
    decreases if pos <= |b| then |b| + 1 - pos else 0
  {
    if HeadersInside(b, pos) {
      forall x: Bytes, y: Bytes | |x| >= |b| && |y| >= |b|
        ensures WalkFrom(Notes(), s, b + x, |b|, pos) == WalkFrom(Notes(), s, b + y, |b|, pos)
      {
        AllInside(Notes(), s, b, x, pos);
        InsideIsEnough(Notes(), s, b, x, y, pos);
      }
    } else {
      OutsideShows(s, b, pos);
      assert WalkFrom(Notes(), s, b + Zeros(|b|), |b|, pos) != WalkFrom(Notes(), s, b + Continued(|b|), |b|, pos);
    }
  }

  lemma {:induction false} AllInside<S, T>(t: Table<S, T>, s: S, b: Bytes, x: Bytes, pos: nat)
    requires HeadersInside(b, pos) && |x| >= |b|
    ensures WalkInside(t, s, b + x, |b|, pos)
    decreases if pos <= |b| then |b| + 1 - pos else 0
  {
    hide GetVar, HeaderInside, Deliver;
    BatchIs(b, x);
    VarBounds(b, pos, 32);
    var length := GetVar(b, pos, 32);
    if length.Got? {
      var start := length.next;
      InsideReads(b, x, start);
      var header := HeaderOf(b, start);
      if header.Got? && start + length.value != |b| {
        var f := Frame(header.value % 1024, (header.value / 1024) % 4, (b + x)[start..start + |b|][header.next..]);
        AllInside(t, Deliver(t, s, f).0, b, x, start + length.value);
      }
    }
  }

  /** A turn that reads its header notes it. */
  lemma NotesTurn(s: seq<(nat, nat)>, mem: Bytes, len: nat, pos: nat)
    requires 2 * len <= |mem|
    ensures var length := GetVar(mem[..len], pos, 32);
            |TakeTurn(Notes(), s, mem, len, pos).s| ==
            if length.Got? && GetVar(mem[length.next..length.next + len], 0, 32).Got? then |s| + 1 else |s|
  {
    hide GetVar, HeaderInside;
  }

  lemma {:induction false} NotesGrow(s: seq<(nat, nat)>, mem: Bytes, len: nat, pos: nat)
    requires 2 * len <= |mem|
    ensures |s| <= |TakeTurn(Notes(), s, mem, len, pos).s| <= |WalkFrom(Notes(), s, mem, len, pos).0|
    decreases if pos <= len then len + 1 - pos else 0
  {
    hide TakeTurn;
    NotesTurn(s, mem, len, pos);
    match TakeTurn(Notes(), s, mem, len, pos)
    case Halt(_, _, _) =>
    case Next(s', next, _) => NotesGrow(s', mem, len, next);
  }

  /** One turn with its header inside, as noted. */
  lemma NotesStep(s: seq<(nat, nat)>, b: Bytes, x: Bytes, pos: nat)
    requires |x| >= |b| && GetVar(b, pos, 32).Got? && GetVar(b, pos, 32).next <= |b|
    requires var length := GetVar(b, pos, 32);
             && HeaderInside(b, length.next) && HeaderOf(b, length.next).Got?
             && length.next + length.value != |b|
    ensures var length := GetVar(b, pos, 32);
            var header := HeaderOf(b, length.next).value;
            WalkFrom(Notes(), s, b + x, |b|, pos) ==
            WalkFrom(Notes(), s + [(header % 1024, (header / 1024) % 4)], b + x, |b|, length.next + length.value)
  {
    hide GetVar, HeaderInside;
    BatchIs(b, x);
    InsideReads(b, x, GetVar(b, pos, 32).next);
  }

  /** A turn whose header leaves the batch is noted or throws. */
  lemma OutsideTurn(s: seq<(nat, nat)>, b: Bytes, pos: nat)
    requires GetVar(b, pos, 32).Got? && 1 <= GetVar(b, pos, 32).next <= |b| && !HeaderInside(b, GetVar(b, pos, 32).next)
    ensures |WalkFrom(Notes(), s, b + Zeros(|b|), |b|, pos).0| > |s|
    ensures WalkFrom(Notes(), s, b + Continued(|b|), |b|, pos) == (s, Exception)
  {
    hide GetVar, HeaderInside;
    var x, start := Zeros(|b|), GetVar(b, pos, 32).next;
    BatchIs(b, x);
    BatchIs(b, Continued(|b|));
    OutsideReads(b, start);
    NotesTurn(s, b + x, |b|, pos);
    NotesGrow(s, b + x, |b|, pos);
  }

  lemma {:induction false} OutsideShows(s: seq<(nat, nat)>, b: Bytes, pos: nat)
    requires !HeadersInside(b, pos)
    ensures WalkFrom(Notes(), s, b + Zeros(|b|), |b|, pos) != WalkFrom(Notes(), s, b + Continued(|b|), |b|, pos)
    decreases if pos <= |b| then |b| + 1 - pos else 0
  {
    hide GetVar, HeaderInside, WalkFrom, HeaderOf;
    VarBounds(b, pos, 32);
    var length := GetVar(b, pos, 32);
    var start := length.next;
    if HeaderInside(b, start) {
      NotesStep(s, b, Zeros(|b|), pos);
      NotesStep(s, b, Continued(|b|), pos);
      var header := HeaderOf(b, start).value;
      OutsideShows(s + [(header % 1024, (header / 1024) % 4)], b, start + length.value);
    } else {
      OutsideTurn(s, b, pos);
    }
  }

  /** In a batch of encoded packets they all do. */
  lemma {:induction false} EncodedInside(ps: seq<Packet>, b: Bytes, pos: nat)
    requires ps != [] && AllFit(ps) && At(b, pos, EncAll(ps)) && pos + |EncAll(ps)| == |b|
    ensures HeadersInside(b, pos)
    decreases |ps|
  {
    hide GetVar, EncPacket, LengthField, HeaderInside, HeaderOf;
    var p, rest := ps[0], ps[1..];
    assert p in ps;
    AtSplit(b, pos, EncPacket(p), EncAll(rest));
    FirstTurn(p, b, pos);
    if rest != [] {
      EncodedInside(rest, b, pos + |EncPacket(p)|);
    }
  }

  lemma FirstTurn(p: Packet, b: Bytes, pos: nat)
    requires p.Fits() && p.payload.Some? && At(b, pos, EncPacket(p))
    ensures var length := GetVar(b, pos, 32);
            && length.Got? && length.next <= |b| && HeaderInside(b, length.next)
            && length.next + length.value == pos + |EncPacket(p)|
  {
    hide GetVar, EncPacket, LengthField, HeaderField, Header, HeaderInside;
    var mem := b + Zeros(|b|);
    BatchIs(b, Zeros(|b|));
    assert mem[pos..pos + |EncPacket(p)|] == b[pos..pos + |EncPacket(p)|];
    FrameReads(p, mem, |b|, pos);
    HeaderStands(p, b, pos);
  }

  lemma HeaderStands(p: Packet, b: Bytes, pos: nat)
    requires p.Fits() && p.payload.Some? && At(b, pos, EncPacket(p))
    ensures HeaderInside(b, pos + |LengthField(p)|)
  {
    hide ScanVar, EncVar, Header, LengthField;
    AtSplit(b, pos, LengthField(p) + HeaderField(p), p.payload.value);
    AtSplit(b, pos, LengthField(p), HeaderField(p));
    HeaderParts(p);
    HeaderShort(Header(p));
    ScanEncVar(Header(p), b, pos + |LengthField(p)|, 5);
  }

  // ----- Payloads -----

  /** What the decoder of a packet is shown: its payload, the rest of the batch, and bytes never received. */
  lemma ViewShown(p: Packet, before: Bytes, rest: Bytes, after: Bytes)
    requires p.payload.Some? && |after| >= |before + EncPacket(p) + rest|
    ensures var b := before + EncPacket(p) + rest;
            && |before| + |LengthField(p)| <= |b|
            && ViewOf(p, b + after, |b|, |before|) ==
               p.payload.value + rest + after[..|before| + |LengthField(p)|]
  {
    hide HeaderField, LengthField;
    var size, h, payload := LengthField(p), HeaderField(p), p.payload.value;
    var b := before + EncPacket(p) + rest;
    var start := |before| + |size|;
    assert b == (before + size) + (h + (payload + rest));
    WindowIs(b, after, start);
    assert b[start..] == h + (payload + rest);
    assert (h + (payload + rest) + after[..start])[|h|..] == payload + rest + after[..start];
  }

  function FirstBytes(x: Bytes, n: nat): Bytes { if n <= |x| then x[..n] else x }

  /** The frames of a batch of packets, of which the first starts at `pos`, with `after` behind it. */
  function Shown(ps: seq<Packet>, pos: nat, after: Bytes): seq<Frame>
    requires AllFit(ps)
  {
    if ps == [] then []
    else
      var p, rest := ps[0], ps[1..];
      assert p in ps;
      [Frame(p.id % 1024, p.subClient % 4,
             p.payload.value + EncAll(rest) + FirstBytes(after, pos + |LengthField(p)|))]
      + Shown(rest, pos + |EncPacket(p)|, after)
  }

  /** How many bytes never received the decoders are shown: as many as stand before the last header. */
  function Foreign(ps: seq<Packet>, pos: nat): nat
    requires AllFit(ps)
  {
    if ps == [] then 0
    else if |ps| == 1 then pos + |LengthField(ps[0])|
    else Foreign(ps[1..], pos + |EncPacket(ps[0])|)
  }

  lemma {:induction false} ForeignGrows(ps: seq<Packet>, pos: nat)
    requires ps != [] && AllFit(ps)
    ensures pos + |LengthField(ps[0])| <= Foreign(ps, pos) <= pos + |EncAll(ps)|
    ensures Foreign(ps[1..], pos + |EncPacket(ps[0])|) <= Foreign(ps, pos)
    decreases |ps|
  {
    hide LengthField, HeaderField;
    assert ps[0] in ps;
    if |ps| > 1 {
      ForeignGrows(ps[1..], pos + |EncPacket(ps[0])|);
    }
  }

  lemma {:induction false} FramesShown(ps: seq<Packet>, before: Bytes, after: Bytes)
    requires AllFit(ps) && |after| >= |before + EncAll(ps)|
    ensures Foreign(ps, |before|) <= |after|
    ensures Frames(ps, before + EncAll(ps) + after, |before + EncAll(ps)|, |before|) == Shown(ps, |before|, after)
    decreases |ps|
  {
    hide LengthField, EncPacket, ViewOf;
    if ps != [] {
      var p, rest := ps[0], ps[1..];
      ForeignGrows(ps, |before|);
      ViewShown(p, before, EncAll(rest), after);
      Assoc(before, EncPacket(p), EncAll(rest));
      FramesShown(rest, before + EncPacket(p), after);
    }
  }

  lemma {:induction false} ShownPrefix(ps: seq<Packet>, pos: nat, u: Bytes, x: Bytes)
    requires AllFit(ps) && Foreign(ps, pos) <= |u| && u <= x
    ensures Shown(ps, pos, u) == Shown(ps, pos, x)
    decreases |ps|
  {
    hide LengthField, EncPacket;
    if ps != [] {
      ForeignGrows(ps, pos);
      var k := pos + |LengthField(ps[0])|;
      assert u[..k] == x[..k];
      ShownPrefix(ps[1..], pos + |EncPacket(ps[0])|, u, x);
    }
  }

  /** Decoders and handlers agree whatever the foreign bytes they are shown. */
  ghost predicate Agree<S(!new), T>(t: Table<S, T>, s: S, ps: seq<Packet>)
    requires AllFit(ps)
  {
    forall u: Bytes, v: Bytes :: |u| == |v| == Foreign(ps, 0) ==>
      DeliverAll(t, s, Shown(ps, 0, u)) == DeliverAll(t, s, Shown(ps, 0, v))
  }

  /** What follows a batch of packets has no effect on the walk if and only if they agree. */
  lemma BatchIndependentIff<S(!new), T>(t: Table<S, T>, s: S, ps: seq<Packet>)
    requires ps != [] && AllFit(ps)
    ensures Independent(t, s, EncAll(ps), 0) <==> Agree(t, s, ps)
  {
    hide *;
    if Independent(t, s, EncAll(ps), 0) {
      IndependentAgree(t, s, ps);
    }
    if Agree(t, s, ps) {
      AgreeIndependent(t, s, ps);
    }
  }

  lemma IndependentAgree<S(!new), T>(t: Table<S, T>, s: S, ps: seq<Packet>)
    requires ps != [] && AllFit(ps) && Independent(t, s, EncAll(ps), 0)
    ensures Agree(t, s, ps)
  {
    hide WalkFrom, DeliverAll, Shown, EncAll, Foreign;
    var b := EncAll(ps);
    ForeignGrows(ps, 0);
    forall u: Bytes, v: Bytes | |u| == |v| == Foreign(ps, 0)
      ensures DeliverAll(t, s, Shown(ps, 0, u)) == DeliverAll(t, s, Shown(ps, 0, v))
    {
      WalkShows(t, s, ps, u + Zeros(|b|), u);
      WalkShows(t, s, ps, v + Zeros(|b|), v);
    }
  }

  lemma AgreeIndependent<S(!new), T>(t: Table<S, T>, s: S, ps: seq<Packet>)
    requires ps != [] && AllFit(ps) && Agree(t, s, ps)
    ensures Independent(t, s, EncAll(ps), 0)
  {
    hide WalkFrom, DeliverAll, Shown, EncAll, Foreign;
    var b, n := EncAll(ps), Foreign(ps, 0);
    ForeignGrows(ps, 0);
    forall x: Bytes, y: Bytes | |x| >= |b| && |y| >= |b|
      ensures WalkFrom(t, s, b + x, |b|, 0) == WalkFrom(t, s, b + y, |b|, 0)
    {
      WalkShows(t, s, ps, x, x[..n]);
      WalkShows(t, s, ps, y, y[..n]);
    }
  }

  lemma WalkShows<S, T>(t: Table<S, T>, s: S, ps: seq<Packet>, x: Bytes, u: Bytes)
    requires ps != [] && AllFit(ps) && |x| >= |EncAll(ps)| && u <= x && |u| == Foreign(ps, 0)
    ensures WalkFrom(t, s, EncAll(ps) + x, |EncAll(ps)|, 0) == DeliverAll(t, s, Shown(ps, 0, u))
  {
    hide WalkFrom, DeliverAll, Shown, EncAll, Frames, Foreign;
    var b := EncAll(ps);
    assert At(b + x, 0, b) by { assert (b + x)[0..|b|] == b; }
    assert [] + b == b;
    FramesShown(ps, [], x);
    WalkDelivers(t, s, ps, b + x, |b|, 0);
    ShownPrefix(ps, 0, u, x);
  }

  /** For one packet: as many foreign bytes as its length field is long. */
  lemma PacketIndependentIff<S(!new), T>(t: Table<S, T>, s: S, p: Packet)
    requires p.Fits() && p.payload.Some?
    ensures var id, sub, payload := p.id % 1024, p.subClient % 4, p.payload.value;
            Independent(t, s, EncPacket(p), 0) <==>
            forall u: Bytes, v: Bytes :: |u| == |v| == |LengthField(p)| ==>
              DeliverAll(t, s, [Frame(id, sub, payload + u)]) == DeliverAll(t, s, [Frame(id, sub, payload + v)])
  {
    hide Independent, DeliverAll, EncPacket, LengthField, EncAll, Shown, Foreign;
    OneShown(p);
    BatchIndependentIff(t, s, [p]);
  }

  lemma OneShown(p: Packet)
    requires p.Fits() && p.payload.Some?
    ensures AllFit([p]) && EncAll([p]) == EncPacket(p) && Foreign([p], 0) == |LengthField(p)|
    ensures forall u: Bytes :: |u| == |LengthField(p)| ==>
              Shown([p], 0, u) == [Frame(p.id % 1024, p.subClient % 4, p.payload.value + u)]
  {
    hide EncPacket, LengthField;
    assert [p][1..] == [];
    forall u: Bytes | |u| == |LengthField(p)|
      ensures Shown([p], 0, u) == [Frame(p.id % 1024, p.subClient % 4, p.payload.value + u)]
    {
      assert u[..|u|] == u && p.payload.value + [] == p.payload.value;
    }
  }
}
