/**
 The wire half of `NetworkSession` and the packet router: queueing, batching, the compression
 envelope, encryption, and the inverse path on a mirrored peer.
 */
module Wire {
  import opened Common
  import opened Bits
  import opened Codec
  import opened Framing
  import opened Cipher

  const ZLIB: byte := 0
  const SNAPPY: byte := 1
  const NO_COMPRESSION: byte := 0xFF
  const MARKER: byte := 0xFE
  const THRESHOLD: nat := 256
  const MAX_DECOMPRESSED: nat := 8 * 1024 * 1024
  const SETTINGS_ID: nat := 0x8F
  const PLAY_STATUS_ID: nat := 0x02
  const CURRENT_PROTOCOL: nat := 924

  datatype Compressors = Compressors(compress: (byte, Bytes) -> Bytes, decompress: (byte, Bytes) -> Option<Bytes>) {
    /** Compressors write something, and decompression inverts them as far as it can. */
    ghost predicate Lawful() {
      forall a: byte, x: Bytes :: HasCompressor(a) && |x| <= MaxInput(a) ==>
        compress(a, x) != [] && decompress(a, compress(a, x)) == Some(x)
    }
  }

  /** `getCompressor(algo) != nullptr`. */
  predicate HasCompressor(algorithm: byte) {
    algorithm == ZLIB || algorithm == SNAPPY
  }

  /** zlib decompresses into a buffer of fixed size; snappy stores the size as a 32-bit number. */
  function MaxInput(algorithm: byte): nat {
    if algorithm == ZLIB then MAX_DECOMPRESSED else TWO_32 - 1
  }

  /** A batch of this size is not compressed, or is not too large to be decompressed. */
  predicate Recoverable(on: bool, algorithm: byte, size: nat) {
    on && HasCompressor(algorithm) && size >= THRESHOLD ==> size <= MaxInput(algorithm)
  }

  /** `acceptedProtocols` has two elements and one initializer, so zero is accepted too. */
  predicate IsSupportedProtocol(version: nat) {
    version == CURRENT_PROTOCOL || version == 0
  }

  datatype Delivery<T> = Delivery(id: nat, subClient: nat, v: T)

  /** The foreign parts: cipher, compressors, packet decoders, and the memory past a received batch. */
  datatype World<!T> = World(
    suite: Suite,
    compressors: Compressors,
    known: nat -> bool,
    decode: (nat, Bytes) -> Decoded<T>,
    beyond: (nat, Bytes) -> Bytes)
  {
    ghost predicate Lawful() {
      && compressors.Lawful()
      && forall i: nat, b: Bytes :: |beyond(i, b)| >= |b|
    }

    function Table<S>(h: Handler<T, S>): Table<Inbox<S>, T> {
      Framing.Table(known, decode, h)
    }
  }

  /** What packet handlers work on: the compression flag and any state of their own. */
  datatype Inbox<S> = Inbox(compression: bool, state: S)

  type Handler<!T, !S> = (Inbox<S>, nat, nat, T) -> (Inbox<S>, bool)

  type Log<T> = seq<Delivery<T>>

  /** A peer that records every packet and turns compression on at the first NetworkSettings. */
  function Collect<T>(s: Inbox<Log<T>>, id: nat, subClient: nat, v: T): (Inbox<Log<T>>, bool) {
    (Inbox(s.compression || id == SETTINGS_ID, s.state + [Delivery(id, subClient, v)]), true)
  }

  // ----- Sending -----

  datatype Server = Server(
    compression: bool, algorithm: byte, encryption: bool, channel: Channel,
    queue: seq<Packet>, transport: seq<Bytes>)

  function Envelope(c: Compressors, on: bool, algorithm: byte, payload: Bytes): Bytes {
    if !on then payload
    else if HasCompressor(algorithm) && |payload| >= THRESHOLD then [algorithm] + c.compress(algorithm, payload)
    else [NO_COMPRESSION] + payload
  }

  /** `sendInternal`. */
  function Transmit<T>(w: World<T>, s: Server, payload: Bytes): Server {
    var enveloped := Envelope(w.compressors, s.compression, s.algorithm, payload);
    if s.encryption then
      var (sealed, next) := Seal(w.suite, s.channel, enveloped);
      s.(channel := next, transport := s.transport + [[MARKER] + sealed])
    else s.(transport := s.transport + [[MARKER] + enveloped])
  }

  datatype Op =
    | Send(p: Packet, immediately: bool)
    | SendBatch(ps: seq<Packet>, immediately: bool)
    | Flush
    | RequestSettings(version: nat)

  /** NetworkSettings: threshold 1, the algorithm, throttling off with its two fields zero. */
  function SettingsPacket(algorithm: byte): Packet {
    Packet(SETTINGS_ID, 0, Some(EncI16LE(1) + EncI16LE(algorithm) + EncBool(false) + [0] + EncLE(0, 4)))
  }

  /** PlayStatus: the client is too old (1) or the server is (2). */
  function RefusalPacket(version: nat): Packet {
    Packet(PLAY_STATUS_ID, 0, Some(EncBE(if version < CURRENT_PROTOCOL then 1 else 2, 4)))
  }

  function SettingsReply(version: nat): Packet {
    if IsSupportedProtocol(version) then SettingsPacket(ZLIB) else RefusalPacket(version)
  }

  /** The packets an operation puts on the wire at once, if any. */
  function Outgoing(s: Server, op: Op): Option<seq<Packet>> {
    match op
    case Send(p, now) => if now then Some([p]) else None
    case SendBatch(ps, now) => if now then Some(ps) else None
    case Flush => if s.queue == [] then None else Some(s.queue)
    case RequestSettings(version) => Some([SettingsReply(version)])
  }

  /** What an operation changes besides the transport, before and after the batch goes out. */
  function Prepare(s: Server, op: Op): Server {
    match op
    case Send(p, now) => if now then s else s.(queue := s.queue + [p])
    case SendBatch(ps, now) => if now then s else s.(queue := s.queue + ps)
    case RequestSettings(version) => if IsSupportedProtocol(version) then s.(algorithm := ZLIB) else s
    case Flush => s
  }

  function Conclude(s: Server, op: Op): Server {
    match op
    case RequestSettings(version) => if IsSupportedProtocol(version) then s.(compression := true) else s
    case Flush => s.(queue := [])
    case _ => s
  }

  function Serve<T>(w: World<T>, s: Server, op: Op): Server {
    var ready := Prepare(s, op);
    match Outgoing(s, op)
    case None => Conclude(ready, op)
    case Some(ps) => Conclude(Transmit(w, ready, EncAll(ps)), op)
  }

  // ----- Receiving -----

  datatype Peer<S> = Peer(encryption: bool, channel: Channel, inbox: Inbox<S>)

  datatype Outcome = Ignored | DecryptFailed | Undefined | Walked(stop: Stop)

  /** The batch inside an envelope; None where the program has no defined behaviour. */
  function Unwrap(c: Compressors, on: bool, payload: Bytes): Option<Bytes> {
    if !on then Some(payload)
    else if payload == [] then None
    else if HasCompressor(payload[0]) then c.decompress(payload[0], payload[1..])
    else Some(payload[1..])
  }

  function Walk<T, S>(w: World<T>, h: Handler<T, S>, p: Peer<S>, i: nat, payload: Bytes): (Peer<S>, Outcome)
    requires w.Lawful()
  {
    match Unwrap(w.compressors, p.inbox.compression, payload)
    case None => (p, Undefined)
    case Some(batch) =>
      var (inbox, stop) := WalkFrom(w.Table(h), p.inbox, batch + w.beyond(i, batch), |batch|, 0);
      (p.(inbox := inbox), Walked(stop))
  }

  /** `route` on a datagram that starts with the marker. */
  function Receive<T, S>(w: World<T>, h: Handler<T, S>, p: Peer<S>, i: nat, datagram: Bytes): (Peer<S>, Outcome)
    requires w.Lawful() && datagram != []
  {
    var data := datagram[1..];
    if |data| <= 1 then (p, Ignored)
    else if !p.encryption then Walk(w, h, p, i, data)
    else
      var (opening, next) := Open(w.suite, p.channel, data);
      match opening
      case Overrun => (p.(channel := next), Undefined)
      case Mismatch => (p.(channel := next), DecryptFailed)
      case Opened(payload) => Walk(w, h, p.(channel := next), i, payload)
  }

  // ----- Datagrams without a meaning -----

  /** An envelope that is empty, or that names a compressor which rejects the rest. */
  predicate Broken(c: Compressors, on: bool, envelope: Bytes) {
    on && (envelope == [] || (HasCompressor(envelope[0]) && c.decompress(envelope[0], envelope[1..]).None?))
  }

  /**
   The router's behaviour is undefined on exactly these datagrams: encrypted ones shorter than a
   checksum, and those whose envelope, opened if need be, is broken.
   */
  lemma UndefinedIff<T, S>(w: World<T>, h: Handler<T, S>, p: Peer<S>, i: nat, d: Bytes)
    requires w.Lawful() && d != []
    ensures Receive(w, h, p, i, d).1 == Undefined <==>
            && |d| > 2
            && if !p.encryption then Broken(w.compressors, p.inbox.compression, d[1..])
               else
                 var opening := Open(w.suite, p.channel, d[1..]).0;
                 |d| < 1 + HASH_SIZE ||
                 (opening.Opened? && Broken(w.compressors, p.inbox.compression, opening.message))
  {
    hide WalkFrom, XorStream;
  }

  /** Without a cipher: the marker, an algorithm and bytes its compressor rejects. */
  lemma RejectedIsUndefined<T, S>(w: World<T>, h: Handler<T, S>, p: Peer<S>, i: nat, x: Bytes)
    requires w.Lawful() && !p.encryption && p.inbox.compression
    requires x != [] && w.compressors.decompress(ZLIB, x) == None
    ensures Receive(w, h, p, i, [MARKER, ZLIB] + x) == (p, Undefined)
  {
    hide WalkFrom;
    var d := [MARKER, ZLIB] + x;
    assert d[1..] == [ZLIB] + x && ([ZLIB] + x)[1..] == x;
  }

  /** With one: any two to seven bytes behind the marker. */
  lemma ShortIsUndefined<T, S>(w: World<T>, h: Handler<T, S>, p: Peer<S>, i: nat, x: Bytes)
    requires w.Lawful() && p.encryption && 2 <= |x| < HASH_SIZE
    ensures Receive(w, h, p, i, [MARKER] + x).1 == Undefined
  {
    hide WalkFrom, XorStream;
    assert ([MARKER] + x)[1..] == x;
  }

  /** A datagram is ignored iff nothing or one byte follows its marker. */
  lemma IgnoredIff<T, S>(w: World<T>, h: Handler<T, S>, p: Peer<S>, i: nat, d: Bytes)
    requires w.Lawful() && d != []
    ensures Receive(w, h, p, i, d).1 == Ignored <==> |d| <= 2
    ensures |d| <= 2 ==> Receive(w, h, p, i, d).0 == p
  {
    hide WalkFrom, XorStream;
  }

  /** It fails to decrypt iff it is the seal of no message; only the cipher moves on, by its bytes. */
  lemma DecryptFailedIff<T, S>(w: World<T>, h: Handler<T, S>, p: Peer<S>, i: nat, d: Bytes)
    requires w.Lawful() && d != []
    ensures Receive(w, h, p, i, d).1 == DecryptFailed <==>
            |d| >= 9 && p.encryption && forall m: Bytes :: d[1..] != Seal(w.suite, p.channel, m).0
    ensures Receive(w, h, p, i, d).1 == DecryptFailed ==>
              Receive(w, h, p, i, d).0 ==
              p.(channel := Channel((p.channel.counter + 1) % TWO_64, p.channel.position + |d| - 1))
  {
    hide WalkFrom, Open, Seal;
    if |d| >= 9 {
      MismatchIff(w.suite, p.channel, d[1..]);
    } else {
      ShortOpens(w.suite, p.channel, d[1..]);
    }
  }

  lemma ShortOpens(s: Suite, c: Channel, sealed: Bytes)
    requires |sealed| < 8
    ensures Open(s, c, sealed).0 == Overrun
  {}

  // ----- One batch, end to end -----

  /** A packet whose decoder looks at its own payload only. */
  ghost predicate OwnPacket<T>(w: World<T>, p: Packet) {
    p.Fits() && (p.payload.Some? ==> Delimited(w.decode, p))
  }

  /** A packet the peer knows and whose decoder is delimited and accepts it. */
  ghost predicate GoodPacket<T>(w: World<T>, p: Packet) {
    OwnPacket(w, p) && (p.payload.Some? ==> w.known(p.id % 1024) && Readable(w, p))
  }

  predicate Readable<T>(w: World<T>, p: Packet) {
    p.payload.Some? && w.decode(p.id % 1024, p.payload.value).Value?
  }

  /** What the peer should record for these packets: id, sub-client modulo four, decoded payload. */
  function Deliveries<T>(w: World<T>, ps: seq<Packet>): seq<Delivery<T>>
    requires forall p :: p in ps ==> Readable(w, p)
  {
    if ps == [] then []
    else
      assert Readable(w, ps[0]);
      [Delivery(ps[0].id % 1024, ps[0].subClient % 4, w.decode(ps[0].id % 1024, ps[0].payload.value).v)]
      + Deliveries(w, ps[1..])
  }

  predicate HasSettings(ps: seq<Packet>) {
    exists p :: p in ps && p.id % 1024 == SETTINGS_ID
  }

  lemma {:induction false} CollectAll<T>(w: World<T>, inbox: Inbox<Log<T>>, es: seq<Packet>)
    requires forall p :: p in es ==> GoodPacket(w, p) && p.payload.Some?
    ensures AllFit(es)
    ensures forall p :: p in es ==> GoodPacket(w, p) && Readable(w, p)
    ensures DeliverAll(w.Table(Collect), inbox, OwnFrames(es)) ==
            (Inbox(inbox.compression || HasSettings(es), inbox.state + Deliveries(w, es)), Finished)
    decreases |es|
  {
    if es == [] {
      assert inbox.state + Deliveries(w, es) == inbox.state;
    } else {
      var p, rest := es[0], es[1..];
      assert es == [p] + rest;
      var frames := OwnFrames(es);
      assert frames[1..] == OwnFrames(rest);
      var v := w.decode(p.id % 1024, p.payload.value).v;
      var d := Delivery(p.id % 1024, p.subClient % 4, v);
      var next := Inbox(inbox.compression || p.id % 1024 == SETTINGS_ID, inbox.state + [d]);
      assert Deliver(w.Table(Collect), inbox, frames[0]) == (next, None);
      CollectAll(w, next, rest);
      assert inbox.state + [d] + Deliveries(w, rest) == inbox.state + Deliveries(w, es);
      assert HasSettings(es) <==> p.id % 1024 == SETTINGS_ID || HasSettings(rest) by {
        SettingsStep(p, rest);
      }
    }
  }

  lemma SettingsStep(p: Packet, rest: seq<Packet>)
    ensures HasSettings([p] + rest) <==> p.id % 1024 == SETTINGS_ID || HasSettings(rest)
  {
    if p.id % 1024 == SETTINGS_ID {
      assert p in [p] + rest;
    }
    if HasSettings(rest) {
      var q :| q in rest && q.id % 1024 == SETTINGS_ID;
      assert q in [p] + rest;
    }
  }

  /** The envelope is undone by a peer with the same compression flag. */
  lemma EnvelopeRoundTrip(c: Compressors, on: bool, algorithm: byte, payload: Bytes)
    requires c.Lawful() && Recoverable(on, algorithm, |payload|)
    ensures Unwrap(c, on, Envelope(c, on, algorithm, payload)) == Some(payload)
  {
    var e := Envelope(c, on, algorithm, payload);
    if on {
      assert e[1..] == if HasCompressor(algorithm) && |payload| >= THRESHOLD then c.compress(algorithm, payload)
                       else payload;
    }
  }

  lemma WalkBatch<T, S>(w: World<T>, h: Handler<T, S>, p: Peer<S>, i: nat, ps: seq<Packet>, algorithm: byte)
    requires w.Lawful() && (forall q :: q in ps ==> OwnPacket(w, q)) && Encodable(ps) != []
    requires Recoverable(p.inbox.compression, algorithm, |EncAll(ps)|)
    ensures AllFit(Encodable(ps))
    ensures var (inbox, stop) := DeliverAll(w.Table(h), p.inbox, OwnFrames(Encodable(ps)));
            Walk(w, h, p, i, Envelope(w.compressors, p.inbox.compression, algorithm, EncAll(ps))) ==
            (p.(inbox := inbox), Walked(stop))
  {
    hide EncAll, WalkFrom, Envelope, Unwrap, OwnFrames, DeliverAll;
    var batch := EncAll(ps);
    EnvelopeRoundTrip(w.compressors, p.inbox.compression, algorithm, batch);
    BatchRoundTrip(w.Table(h), p.inbox, ps, w.beyond(i, batch));
  }

  /** The two ends agree on the flags, the counter and the keystream position. */
  predicate InSync<S>(s: Server, p: Peer<S>) {
    s.compression == p.inbox.compression && s.encryption == p.encryption && s.channel == p.channel
  }

  /** One transmitted batch is handled packet by packet, whatever the handlers, and the cipher stays in step. */
  lemma BatchHandled<T, S>(w: World<T>, h: Handler<T, S>, s: Server, p: Peer<S>, i: nat, ps: seq<Packet>)
    requires w.Lawful() && (forall q :: q in ps ==> OwnPacket(w, q)) && Encodable(ps) != [] && InSync(s, p)
    requires Recoverable(s.compression, s.algorithm, |EncAll(ps)|)
    ensures AllFit(Encodable(ps))
    ensures var s' := Transmit(w, s, EncAll(ps));
            var (inbox, stop) := DeliverAll(w.Table(h), p.inbox, OwnFrames(Encodable(ps)));
            && |s'.transport| == |s.transport| + 1
            && s'.transport[|s.transport|] != []
            && Receive(w, h, p, i, s'.transport[|s.transport|]) ==
               (Peer(p.encryption, s'.channel, inbox), Walked(stop))
  {
    hide EncAll, Walk, OwnFrames, DeliverAll, Envelope, Seal, Open;
    WalkBatch(w, h, p, i, ps, s.algorithm);
    var batch := EncAll(ps);
    var enveloped := Envelope(w.compressors, s.compression, s.algorithm, batch);
    EnvelopeLong(w, s.compression, s.algorithm, ps);
    if s.encryption {
      OpenSealed(w.suite, s.channel, enveloped);
      var (sealed, next) := Seal(w.suite, s.channel, enveloped);
      assert ([MARKER] + sealed)[1..] == sealed;
      WalkBatch(w, h, p.(channel := next), i, ps, s.algorithm);
    } else {
      assert ([MARKER] + enveloped)[1..] == enveloped;
    }
  }

  /** An envelope around a batch is never so short that the router ignores it. */
  lemma EnvelopeLong<T>(w: World<T>, on: bool, algorithm: byte, ps: seq<Packet>)
    requires w.Lawful() && (forall q :: q in ps ==> OwnPacket(w, q)) && Encodable(ps) != []
    requires Recoverable(on, algorithm, |EncAll(ps)|)
    ensures |Envelope(w.compressors, on, algorithm, EncAll(ps))| >= 2
  {
    hide EncAll;
    EncAllEncodable(ps);
    NotEmpty(Encodable(ps));
    if on && HasCompressor(algorithm) && |EncAll(ps)| >= THRESHOLD {
      assert w.compressors.decompress(algorithm, w.compressors.compress(algorithm, EncAll(ps))) == Some(EncAll(ps));
    }
  }

  /** A batch without an encodable packet changes nothing at the peer but the cipher's place. */
  lemma EmptyHandled<T, S>(w: World<T>, h: Handler<T, S>, s: Server, p: Peer<S>, i: nat, ps: seq<Packet>)
    requires w.Lawful() && Encodable(ps) == [] && InSync(s, p)
    ensures var s' := Transmit(w, s, EncAll(ps));
            && |s'.transport| == |s.transport| + 1
            && s'.transport[|s.transport|] != []
            && Receive(w, h, p, i, s'.transport[|s.transport|]).0 == p.(channel := s'.channel)
  {
    hide Encodable, Walk, Seal, Open;
    EncAllEncodable(ps);
    assert EncAll([]) == [];
    var enveloped := Envelope(w.compressors, s.compression, s.algorithm, []);
    assert enveloped == if s.compression then [NO_COMPRESSION] else [];
    if s.encryption {
      OpenSealed(w.suite, s.channel, enveloped);
      var (sealed, next) := Seal(w.suite, s.channel, enveloped);
      assert ([MARKER] + sealed)[1..] == sealed;
      NothingWalked(w, h, p.(channel := next), i, enveloped);
    } else {
      assert ([MARKER] + enveloped)[1..] == enveloped;
    }
  }

  lemma NothingWalked<T, S>(w: World<T>, h: Handler<T, S>, p: Peer<S>, i: nat, enveloped: Bytes)
    requires w.Lawful() && enveloped == if p.inbox.compression then [NO_COMPRESSION] else []
    ensures Walk(w, h, p, i, enveloped) == (p, Walked(Exception))
  {
    assert enveloped[..|enveloped|] == enveloped;
    if p.inbox.compression {
      assert enveloped[1..] == [];
    }
    assert ([] + w.beyond(i, []))[..0] == [];
  }

  ghost predicate GoodBatch<T>(w: World<T>, ps: seq<Packet>) {
    forall p :: p in ps ==> GoodPacket(w, p)
  }

  /** One transmitted batch is recorded packet by packet, to its end if any packet of it was encoded. */
  lemma BatchArrives<T>(w: World<T>, s: Server, p: Peer<Log<T>>, i: nat, ps: seq<Packet>)
    requires w.Lawful() && GoodBatch(w, ps) && InSync(s, p)
    requires Recoverable(s.compression, s.algorithm, |EncAll(ps)|)
    ensures forall e :: e in Encodable(ps) ==> GoodPacket(w, e) && e.payload.Some?
    ensures var s' := Transmit(w, s, EncAll(ps));
            && |s'.transport| == |s.transport| + 1
            && s'.transport[|s.transport|] != []
            && var (p', outcome) := Receive(w, Collect, p, i, s'.transport[|s.transport|]);
            && p' == Peer(p.encryption, s'.channel,
                          Inbox(p.inbox.compression || HasSettings(Encodable(ps)),
                                p.inbox.state + Deliveries(w, Encodable(ps))))
            && (Encodable(ps) != [] ==> outcome == Walked(Finished))
  {
    hide Encodable, EncAll, Receive, Deliveries, HasSettings, Transmit, OwnFrames, DeliverAll;
    var es := Encodable(ps);
    if es == [] {
      EmptyHandled(w, Collect, s, p, i, ps);
      CollectNothing(w, p.inbox);
    } else {
      BatchHandled(w, Collect, s, p, i, ps);
      CollectAll(w, p.inbox, es);
    }
  }

  lemma CollectNothing<T>(w: World<T>, inbox: Inbox<Log<T>>)
    ensures Inbox(inbox.compression || HasSettings([]), inbox.state + Deliveries(w, [])) == inbox
  {
    assert inbox.state + [] == inbox.state;
  }

  /** A supported version is told the algorithm the server compresses with from then on. */
  lemma SettingsAnnounced<T>(w: World<T>, s: Server, version: nat)
    requires IsSupportedProtocol(version)
    ensures var s' := Serve(w, s, RequestSettings(version));
            var payload := SettingsReply(version).payload.value;
            && s'.compression
            && GetI16LE(payload, 0) == Got(1, 2)
            && GetI16LE(payload, 2) == Got(s'.algorithm, 4)
  {
    hide EncI16LE, GetI16LE, Transmit, EncBool, EncLE;
    var a, b, rest := EncI16LE(1), EncI16LE(ZLIB), EncBool(false) + [0] + EncLE(0, 4);
    var payload := a + b + EncBool(false) + [0] + EncLE(0, 4);
    assert payload == a + b + rest;
    assert At(payload, 0, a) && At(payload, 2, b);
    I16RoundTrip(1, payload, 0);
    I16RoundTrip(ZLIB, payload, 2);
    TransmitKeeps(w, s.(algorithm := ZLIB), EncAll([SettingsReply(version)]));
  }

  /** Exactly the versions 924 and 0 turn compression on. */
  lemma SettingsTakenIff<T>(w: World<T>, s: Server, version: nat)
    ensures Serve(w, s, RequestSettings(version)).compression <==> s.compression || version == 924 || version == 0
  {
    hide EncAll, SettingsReply;
    TransmitKeeps(w, Prepare(s, RequestSettings(version)), EncAll([SettingsReply(version)]));
  }

  /**
   Any other version is told which side is too old, 1 for the client and 2 for the server, in a
   PlayStatus sent as the session stood; nothing else about the session changes.
   */
  lemma RefusalTells<T>(w: World<T>, s: Server, version: nat)
    requires version != 924 && version != 0
    ensures var reply := SettingsReply(version);
            && reply.id == 0x02 && reply.subClient == 0 && reply.payload.Some? && |reply.payload.value| == 4
            && GetBE(reply.payload.value, 0, 4) == Got(if version < 924 then 1 else 2, 4)
            && Serve(w, s, RequestSettings(version)) == Transmit(w, s, EncAll([reply]))
    ensures var s' := Serve(w, s, RequestSettings(version));
            && s'.compression == s.compression && s'.algorithm == s.algorithm
            && s'.encryption == s.encryption && s'.queue == s.queue
  {
    hide EncBE, GetBE, EncAll, Pow2;
    var status := if version < 924 then 1 else 2;
    var payload := EncBE(status, 4);
    assert At(payload, 0, payload);
    WidthBounds();
    BERoundTrip(status, 4, payload, 0);
  }

  /**
   The announced threshold is met by exactly the batches that are empty or reach 256 bytes: from one
   byte on a client is told to expect zlib, and below 256 it does not get it.
   */
  lemma ThresholdKeptIff<T>(w: World<T>, s: Server, version: nat, batch: Bytes)
    requires IsSupportedProtocol(version)
    ensures var s' := Serve(w, s, RequestSettings(version));
            var announced := GetI16LE(SettingsReply(version).payload.value, 0);
            var enveloped := Envelope(w.compressors, s'.compression, s'.algorithm, batch);
            && announced.Got? && enveloped != []
            && ((enveloped[0] == 0 <==> |batch| >= announced.value) <==> |batch| == 0 || |batch| >= 256)
  {
    hide GetI16LE, Transmit, SettingsReply, EncAll;
    SettingsAnnounced(w, s, version);
    TransmitKeeps(w, s.(algorithm := ZLIB), EncAll([SettingsReply(version)]));
  }

  /** Such a batch, of one to 255 bytes, leaves uncompressed after the settings. */
  lemma SmallBatchUncompressed<T>(w: World<T>, s: Server, version: nat, batch: Bytes)
    requires IsSupportedProtocol(version) && !s.encryption && 1 <= |batch| < 256
    ensures var s' := Serve(w, s, RequestSettings(version));
            Transmit(w, s', batch).transport == s'.transport + [[0xFE, 0xFF] + batch]
  {
    hide SettingsReply, EncAll;
    assert [MARKER] + ([NO_COMPRESSION] + batch) == [MARKER, NO_COMPRESSION] + batch;
  }

  // ----- Whole runs -----

  ghost predicate OpFits<T>(w: World<T>, s: Server, op: Op) {
    match Outgoing(s, op)
    case None => true
    case Some(ps) =>
      var ready := Prepare(s, op);
      && GoodBatch(w, ps)
      && Recoverable(ready.compression, ready.algorithm, |EncAll(ps)|)
      && (HasSettings(Encodable(ps)) <==> op.RequestSettings? && IsSupportedProtocol(op.version))
  }

  /** Every batch of the run is good, and NetworkSettings goes out only when settings are requested. */
  ghost predicate RunFits<T>(w: World<T>, s: Server, ops: seq<Op>)
    decreases |ops|
  {
    ops == [] || (OpFits(w, s, ops[0]) && RunFits(w, Serve(w, s, ops[0]), ops[1..]))
  }

  function ServeAll<T>(w: World<T>, s: Server, ops: seq<Op>): Server
    decreases |ops|
  {
    if ops == [] then s else ServeAll(w, Serve(w, s, ops[0]), ops[1..])
  }

  function SentBy(s: Server, op: Op): seq<Packet> {
    match Outgoing(s, op)
    case None => []
    case Some(ps) => Encodable(ps)
  }

  /** The encodable packets of every batch of the run, in the order they leave. */
  function Sent<T>(w: World<T>, s: Server, ops: seq<Op>): seq<Packet>
    decreases |ops|
  {
    if ops == [] then [] else SentBy(s, ops[0]) + Sent(w, Serve(w, s, ops[0]), ops[1..])
  }

  /** A peer that receives each datagram as it is sent. */
  function Play<T>(w: World<T>, s: Server, p: Peer<Log<T>>, i: nat, ops: seq<Op>): Peer<Log<T>>
    requires w.Lawful()
    decreases |ops|
  {
    if ops == [] then p
    else
      var s' := Serve(w, s, ops[0]);
      TransportGrows(w, s, ops[0]);
      var p' := if Outgoing(s, ops[0]).None? then p else Receive(w, Collect, p, i, s'.transport[|s.transport|]).0;
      Play(w, s', p', i + 1, ops[1..])
  }

  lemma TransportGrows<T>(w: World<T>, s: Server, op: Op)
    ensures Outgoing(s, op).Some? ==>
              && |Serve(w, s, op).transport| == |s.transport| + 1
              && Serve(w, s, op).transport[|s.transport|] != []
    ensures Outgoing(s, op).None? ==> Serve(w, s, op).transport == s.transport
    ensures s.transport <= Serve(w, s, op).transport
  {}

  lemma OpArrives<T>(w: World<T>, s: Server, p: Peer<Log<T>>, i: nat, op: Op)
    requires w.Lawful() && InSync(s, p) && OpFits(w, s, op) && Outgoing(s, op).Some?
    ensures forall e :: e in Encodable(Outgoing(s, op).value) ==> Readable(w, e)
    ensures |Serve(w, s, op).transport| == |s.transport| + 1 && Serve(w, s, op).transport[|s.transport|] != []
    ensures var s' := Serve(w, s, op);
            var p' := Receive(w, Collect, p, i, s'.transport[|s.transport|]).0;
            && InSync(s', p')
            && p'.inbox.state == p.inbox.state + Deliveries(w, Encodable(Outgoing(s, op).value))
  {
    hide EncAll, Receive, Deliveries, HasSettings, Transmit, GoodPacket;
    TransportGrows(w, s, op);
    var ps := Outgoing(s, op).value;
    var ready := Prepare(s, op);
    BatchArrives(w, ready, p, i, ps);
    TransmitKeeps(w, ready, EncAll(ps));
    AllReadable(w, Encodable(ps));
  }

  lemma AllReadable<T>(w: World<T>, es: seq<Packet>)
    requires forall e :: e in es ==> GoodPacket(w, e) && e.payload.Some?
    ensures forall e :: e in es ==> Readable(w, e)
  {}

  lemma TransmitKeeps<T>(w: World<T>, s: Server, payload: Bytes)
    ensures Transmit(w, s, payload).compression == s.compression
    ensures Transmit(w, s, payload).encryption == s.encryption
    ensures Transmit(w, s, payload).algorithm == s.algorithm
  {}

  lemma {:induction false} DeliveriesConcat<T>(w: World<T>, a: seq<Packet>, b: seq<Packet>)
    requires (forall p :: p in a ==> Readable(w, p)) && (forall p :: p in b ==> Readable(w, p))
    ensures Deliveries(w, a + b) == Deliveries(w, a) + Deliveries(w, b)
  {
    if a == [] {
      assert a + b == b;
    } else {
      TailOfConcat(a, b);
      DeliveriesConcat(w, a[1..], b);
    }
  }

  /**
   End to end: over any run of queued sends, immediate sends, flushes and settings requests, a peer
   that starts in step records exactly the packets sent, in order, and ends in step.
   */
  lemma {:induction false} EndToEnd<T>(w: World<T>, s: Server, p: Peer<Log<T>>, i: nat, ops: seq<Op>)
    requires w.Lawful() && InSync(s, p) && RunFits(w, s, ops)
    ensures forall e :: e in Sent(w, s, ops) ==> Readable(w, e)
    ensures InSync(ServeAll(w, s, ops), Play(w, s, p, i, ops))
    ensures Play(w, s, p, i, ops).inbox.state == p.inbox.state + Deliveries(w, Sent(w, s, ops))
    decreases |ops|
  {
    hide Serve, Receive, Deliveries, Readable, GoodBatch, HasSettings, EncAll, Encodable, Recoverable, Prepare;
    if ops == [] {
      NoDeliveries(w);
    } else {
      var op, rest := ops[0], ops[1..];
      var s' := Serve(w, s, op);
      TransportGrows(w, s, op);
      if Outgoing(s, op).None? {
        QuietOp(w, s, op);
        EndToEnd(w, s', p, i + 1, rest);
        assert Sent(w, s, ops) == Sent(w, s', rest);
      } else {
        OpArrives(w, s, p, i, op);
        var p' := Receive(w, Collect, p, i, s'.transport[|s.transport|]).0;
        EndToEnd(w, s', p', i + 1, rest);
        var now := Encodable(Outgoing(s, op).value);
        DeliveriesConcat(w, now, Sent(w, s', rest));
      }
    }
  }

  lemma NoDeliveries<T>(w: World<T>)
    ensures Deliveries(w, []) == []
  {}

  lemma QuietOp<T>(w: World<T>, s: Server, op: Op)
    requires Outgoing(s, op).None?
    ensures var s' := Serve(w, s, op);
            s'.compression == s.compression && s'.encryption == s.encryption && s'.channel == s.channel
  {}

  // ----- The send queue -----

  /** The packets handed over for later. */
  function Queued(ops: seq<Op>): seq<Packet> {
    if ops == [] then []
    else
      (match ops[0]
       case Send(p, now) => if now then [] else [p]
       case SendBatch(ps, now) => if now then [] else ps
       case _ => [])
      + Queued(ops[1..])
  }

  /** The packets handed over to go at once. */
  function Immediate(ops: seq<Op>): seq<Packet> {
    if ops == [] then [] else ImmediateOf(ops[0]) + Immediate(ops[1..])
  }

  function FlushedBy(s: Server, op: Op): seq<Packet> {
    if op.Flush? then s.queue else []
  }

  /** The packets that leave by a flush, in order. */
  function Flushed<T>(w: World<T>, s: Server, ops: seq<Op>): seq<Packet>
    decreases |ops|
  {
    if ops == [] then []
    else FlushedBy(s, ops[0]) + Flushed(w, Serve(w, s, ops[0]), ops[1..])
  }

  lemma QueueAfter<T>(w: World<T>, s: Server, op: Op)
    ensures Serve(w, s, op).queue == (if op.Flush? then [] else s.queue + Queued([op]))
  {
    assert [op][1..] == [];
    assert s.queue + [] == s.queue;
  }

  /** Every queued packet leaves by exactly one flush, in queue order, or is still queued. */
  lemma {:induction false} QueueConservation<T>(w: World<T>, s: Server, ops: seq<Op>)
    ensures s.queue + Queued(ops) == Flushed(w, s, ops) + ServeAll(w, s, ops).queue
    decreases |ops|
  {
    hide Serve, Queued;
    if ops == [] {
      NothingQueued();
    } else {
      var op, rest := ops[0], ops[1..];
      var s' := Serve(w, s, op);
      QueueConservation(w, s', rest);
      QueueAfter(w, s, op);
      QueuedCons(ops);
      var q, f, end := Queued(rest), Flushed(w, s', rest), ServeAll(w, s', rest).queue;
      hide *;
      if op.Flush? {
        FlushKeeps(s.queue, Queued([op]), q, f, end);
      } else {
        QueueingKeeps(s.queue, Queued([op]), q, f, end);
      }
    }
  }

  lemma NothingQueued()
    ensures Queued([]) == []
  {}

  lemma FlushKeeps(queue: seq<Packet>, none: seq<Packet>, q: seq<Packet>, f: seq<Packet>, end: seq<Packet>)
    requires none == [] && [] + q == f + end
    ensures queue + (none + q) == (queue + f) + end
  {
    Assoc(queue, f, end);
  }

  lemma QueueingKeeps(queue: seq<Packet>, more: seq<Packet>, q: seq<Packet>, f: seq<Packet>, end: seq<Packet>)
    requires (queue + more) + q == f + end
    ensures queue + (more + q) == ([] + f) + end
  {
    Assoc(queue, more, q);
    assert [] + f == f;
  }

  lemma QueuedCons(ops: seq<Op>)
    requires ops != []
    ensures Queued(ops) == Queued([ops[0]]) + Queued(ops[1..])
    ensures ops[0].Flush? ==> Queued([ops[0]]) == []
  {
    assert [ops[0]][1..] == [];
  }

  /** The batches in the order they leave, each with whether a flush sent it. */
  function Batches<T>(w: World<T>, s: Server, ops: seq<Op>): seq<(bool, seq<Packet>)>
    decreases |ops|
  {
    if ops == [] then [] else [(ops[0].Flush?, SentBy(s, ops[0]))] + Batches(w, Serve(w, s, ops[0]), ops[1..])
  }

  /** The packets of the batches, one batch after the other. */
  function Joined(bs: seq<(bool, seq<Packet>)>): seq<Packet> {
    if bs == [] then [] else bs[0].1 + Joined(bs[1..])
  }

  /** The batches sent by a flush, or the others. */
  function Only(bs: seq<(bool, seq<Packet>)>, flushed: bool): seq<(bool, seq<Packet>)> {
    if bs == [] then []
    else (if bs[0].0 == flushed then [bs[0]] else []) + Only(bs[1..], flushed)
  }

  /**
   What leaves, in order: the batches of the run, of which those sent by a flush carry the flushed
   packets in queue order and the others the immediate ones in the order of the calls.
   */
  lemma {:induction false} SentInOrder<T>(w: World<T>, s: Server, ops: seq<Op>)
    ensures var bs := Batches(w, s, ops);
            && Joined(bs) == Sent(w, s, ops)
            && Joined(Only(bs, true)) == Encodable(Flushed(w, s, ops))
            && Joined(Only(bs, false)) == Encodable(Immediate(ops))
    decreases |ops|
  {
    hide Serve, SentBy, FlushedBy, ImmediateOf, Encodable, Joined, Only;
    if ops == [] {
      NothingSent();
    } else {
      var op, rest := ops[0], ops[1..];
      var s' := Serve(w, s, op);
      SentInOrder(w, s', rest);
      EncodableConcat(FlushedBy(s, op), Flushed(w, s', rest));
      EncodableConcat(ImmediateOf(op), Immediate(rest));
      OneWayOut(s, op);
      JoinedCons((op.Flush?, SentBy(s, op)), Batches(w, s', rest));
    }
  }

  lemma NothingSent()
    ensures Encodable([]) == [] && Joined([]) == []
    ensures Only([], true) == [] && Only([], false) == []
  {}

  lemma JoinedCons(b: (bool, seq<Packet>), rest: seq<(bool, seq<Packet>)>)
    ensures Joined([b] + rest) == b.1 + Joined(rest)
    ensures forall t: bool :: Joined(Only([b] + rest, t)) == (if b.0 == t then b.1 else []) + Joined(Only(rest, t))
  {
    assert ([b] + rest)[1..] == rest;
    forall t: bool
      ensures Joined(Only([b] + rest, t)) == (if b.0 == t then b.1 else []) + Joined(Only(rest, t))
    {
      assert ([b] + Only(rest, t))[1..] == Only(rest, t);
      assert [] + Only(rest, t) == Only(rest, t);
    }
  }

  lemma OneWayOut(s: Server, op: Op)
    ensures Encodable(FlushedBy(s, op)) == if op.Flush? then SentBy(s, op) else []
    ensures Encodable(ImmediateOf(op)) == if op.Flush? then [] else SentBy(s, op)
  {}

  /** Every encodable packet put in the queue leaves once, in queue order, or is still queued at the end. */
  lemma QueuedLeaveInOrder<T>(w: World<T>, s: Server, ops: seq<Op>)
    ensures Joined(Only(Batches(w, s, ops), true)) + Encodable(ServeAll(w, s, ops).queue) ==
            Encodable(s.queue + Queued(ops))
  {
    hide *;
    SentInOrder(w, s, ops);
    QueueConservation(w, s, ops);
    EncodableConcat(Flushed(w, s, ops), ServeAll(w, s, ops).queue);
  }

  function ImmediateOf(op: Op): seq<Packet> {
    match op
    case Send(p, now) => if now then [p] else []
    case SendBatch(ps, now) => if now then ps else []
    case RequestSettings(version) => [SettingsReply(version)]
    case Flush => []
  }

  /** Queueing a batch on an empty queue and flushing is sending it at once, unless the batch is empty. */
  lemma QueueThenFlush<T>(w: World<T>, s: Server, ps: seq<Packet>)
    requires s.queue == []
    ensures Serve(w, Serve(w, s, SendBatch(ps, false)), Flush) == Serve(w, s, SendBatch(ps, true)) <==> ps != []
  {
    hide Transmit, EncAll;
    var queued := Serve(w, s, SendBatch(ps, false));
    assert queued == s.(queue := ps) by { assert [] + ps == ps; }
    if ps == [] {
      TransportGrows(w, s, SendBatch(ps, true));
    } else {
      TransmitIgnoresQueue(w, s, ps, EncAll(ps));
    }
  }

  lemma TransmitIgnoresQueue<T>(w: World<T>, s: Server, q: seq<Packet>, payload: Bytes)
    ensures Transmit(w, s.(queue := q), payload).(queue := s.queue) == Transmit(w, s, payload)
  {}
}
