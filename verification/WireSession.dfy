/** The wire half of `NetworkSession`, and `McbePacketRouter::route`, as they update their fields. */
module WireSession {
  import opened Common
  import opened Framing
  import opened Cipher
  import opened Wire

  /** Buffers fit the address space with room to spare. */
  ghost predicate Bounded<T>(w: World<T>) {
    && (forall i: nat, b: Bytes :: |b| < TWO_64 / 16 ==> |w.beyond(i, b)| < TWO_64 / 16)
    && forall a: byte, x: Bytes :: w.compressors.decompress(a, x).Some? ==>
         |w.compressors.decompress(a, x).value| < TWO_64 / 16
  }

  /** `handler` is what the packet handlers do to the session: its compression flag and a state of theirs. */
  class Session<T(!new), S(!new)> {
    const world: World<T>
    const handler: Handler<T, S>
    const encryptor: AesEncryptor
    var compressionEnabled: bool
    var compressor: byte
    var encryptionEnabled: bool
    var sendQueue: seq<Packet>
    var transport: seq<Bytes>
    var state: S

    ghost predicate Valid()
      reads this
    {
      encryptor.suite == world.suite
    }

    ghost function Sending(): Server
      reads this, encryptor
    {
      Server(compressionEnabled, compressor, encryptionEnabled, encryptor.encryptBlock, sendQueue, transport)
    }

    ghost function Receiving(): Peer<S>
      reads this, encryptor
    {
      Peer(encryptionEnabled, encryptor.decryptBlock, Inbox(compressionEnabled, state))
    }

    constructor (world: World<T>, handler: Handler<T, S>, encryptor: AesEncryptor, compressor: byte, state: S)
      requires encryptor.suite == world.suite
      ensures Valid() && this.world == world && this.handler == handler && this.encryptor == encryptor
      ensures Sending() == Server(false, compressor, false, encryptor.encryptBlock, [], [])
      ensures Receiving() == Peer(false, encryptor.decryptBlock, Inbox(false, state))
    {
      this.world, this.handler, this.encryptor, this.compressor := world, handler, encryptor, compressor;
      this.state := state;
      compressionEnabled, encryptionEnabled, sendQueue, transport := false, false, [], [];
    }

    method SendInternal(payload: Bytes)
      requires Valid()
      modifies this`transport, encryptor`encryptBlock
      ensures Sending() == Transmit(world, old(Sending()), payload)
    {
      hide Seal;
      var out: Bytes;
      if !compressionEnabled {
        out := payload;
      } else if HasCompressor(compressor) && |payload| >= THRESHOLD {
        var compressed := world.compressors.compress(compressor, payload);
        out := [compressor] + compressed;
      } else {
        out := [NO_COMPRESSION] + payload;
      }
      if encryptionEnabled {
        out := encryptor.Encrypt(out);
      }
      transport := transport + [[MARKER] + out];
    }

    method Send(p: Packet, immediately: bool)
      requires Valid()
      modifies this, encryptor`encryptBlock
      ensures Valid() && Sending() == Serve(world, old(Sending()), Op.Send(p, immediately))
      ensures state == old(state)
    {
      hide Transmit, EncPacket;
      if immediately {
        var buffer := EncodeAll([p]);
        SendInternal(buffer);
        return;
      }
      sendQueue := sendQueue + [p];
    }

    method SendBatch(packets: seq<Packet>, immediately: bool)
      requires Valid()
      modifies this, encryptor`encryptBlock
      ensures Valid() && Sending() == Serve(world, old(Sending()), Op.SendBatch(packets, immediately))
      ensures state == old(state)
    {
      hide Transmit, EncAll;
      if immediately {
        var buffer := EncodeAll(packets);
        SendInternal(buffer);
        return;
      }
      for i := 0 to |packets|
        invariant Valid() && state == old(state)
        invariant Sending() == old(Sending()).(queue := old(sendQueue) + packets[..i])
      {
        assert packets[..i + 1] == packets[..i] + [packets[i]];
        sendQueue := sendQueue + [packets[i]];
      }
      assert packets[..|packets|] == packets;
    }

    method Flush()
      requires Valid()
      modifies this, encryptor`encryptBlock
      ensures Valid() && Sending() == Serve(world, old(Sending()), Op.Flush)
      ensures state == old(state)
    {
      hide Transmit, EncAll;
      if sendQueue == [] {
        return;
      }
      var buffer := EncodeAll(sendQueue);
      SendInternal(buffer);
      sendQueue := [];
    }

    /** The reply leaves under the old compression flag; only then is compression on. */
    method HandleRequestNetworkSettings(version: nat) returns (ok: bool)
      requires Valid()
      modifies this, encryptor`encryptBlock
      ensures Valid() && Sending() == Serve(world, old(Sending()), RequestSettings(version))
      ensures state == old(state)
      ensures ok <==> IsSupportedProtocol(version)
    {
      hide Transmit, EncPacket, SettingsPacket, RefusalPacket;
      if !IsSupportedProtocol(version) {
        var reply := EncodeAll([RefusalPacket(version)]);
        SendInternal(reply);
        return false;
      }
      compressor := ZLIB;
      var reply := EncodeAll([SettingsPacket(compressor)]);
      SendInternal(reply);
      compressionEnabled := true;
      ok := true;
    }

    /** Any call that sends. */
    method Perform(op: Op)
      requires Valid()
      modifies this, encryptor`encryptBlock
      ensures Valid() && Sending() == Serve(world, old(Sending()), op) && state == old(state)
    {
      hide Serve;
      match op
      case Send(p, immediately) => Send(p, immediately);
      case SendBatch(ps, immediately) => SendBatch(ps, immediately);
      case Flush => Flush();
      case RequestSettings(version) => var _ := HandleRequestNetworkSettings(version);
    }

    /** A whole run of such calls. */
    method PerformAll(ops: seq<Op>)
      requires Valid()
      modifies this, encryptor`encryptBlock
      ensures Valid() && Sending() == ServeAll(world, old(Sending()), ops) && state == old(state)
    {
      hide Serve;
      for i := 0 to |ops|
        invariant Valid() && state == old(state)
        invariant ServeAll(world, Sending(), ops[i..]) == ServeAll(world, old(Sending()), ops)
      {
        assert ops[i..][0] == ops[i] && ops[i..][1..] == ops[i + 1..];
        Perform(ops[i]);
      }
    }

    /** `onRaw` on this session: the handlers run on its flag and state. */
    method Walk(i: nat, batch: Bytes) returns (stop: Stop)
      requires Valid() && world.Lawful() && Bounded(world) && |batch| < TWO_64 / 16
      modifies this`compressionEnabled, this`state
      ensures var (inbox, s) := WalkFrom(world.Table(handler), old(Receiving()).inbox,
                                         batch + world.beyond(i, batch), |batch|, 0);
              Receiving() == old(Receiving()).(inbox := inbox) && stop == s
    {
      hide WalkFrom;
      var inbox, s, _, _ := OnRaw(world.Table(handler), Inbox(compressionEnabled, state),
                                  batch + world.beyond(i, batch), |batch|);
      compressionEnabled, state := inbox.compression, inbox.state;
      stop := s;
    }

    /** `route`, on a datagram that starts with the marker. */
    method Route(i: nat, datagram: Bytes) returns (outcome: Outcome)
      requires Valid() && world.Lawful() && Bounded(world) && 0 < |datagram| < TWO_64 / 16
      modifies this`compressionEnabled, this`state, encryptor`decryptBlock
      ensures (Receiving(), outcome) == Receive(world, handler, old(Receiving()), i, datagram)
    {
      hide Open, WalkFrom;
      var data := datagram[1..];
      if |data| <= 1 {
        return Ignored;
      }
      var payload := data;
      if encryptionEnabled {
        var opening := encryptor.Decrypt(data);
        if opening.Overrun? {
          return Undefined;
        }
        if opening.Mismatch? {
          return DecryptFailed;
        }
        OpenShorter(world.suite, old(encryptor.decryptBlock), data);
        payload := opening.message;
      }
      if compressionEnabled {
        if payload == [] {
          return Undefined;
        }
        if HasCompressor(payload[0]) {
          var plain := world.compressors.decompress(payload[0], payload[1..]);
          if plain.None? {
            return Undefined;
          }
          payload := plain.value;
        } else {
          payload := payload[1..];
        }
      }
      var stop := Walk(i, payload);
      outcome := Walked(stop);
    }
  }

  lemma OpenShorter(s: Suite, c: Channel, sealed: Bytes)
    ensures Open(s, c, sealed).0.Opened? ==> |Open(s, c, sealed).0.message| <= |sealed|
  {}
}
