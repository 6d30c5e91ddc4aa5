/** `ResourcePackChunkRequestPacket`: which requests can arrive, and so which packs can be completed. */
module ChunkRequest {
  import opened Common
  import opened Codec
  import opened BinaryIO
  import S = SchedulerSpec
  import R = SchedulerRuns

  /** Textual UUIDs: a printer of 36 characters and a parser that undoes it. */
  datatype UuidText = UuidText(format: Uuid -> Bytes, parse: Bytes -> Option<Uuid>) {
    ghost predicate Lawful() {
      forall id: Uuid :: |format(id)| == 36 && parse(format(id)) == Some(id)
    }
  }

  /** What `decodePayload` makes of the bytes at `pos`: the textual id, then a 16-bit index. */
  function GetChunkRequest(x: UuidText, data: Bytes, pos: nat): Read<S.Event> {
    var (text, p1) :- GetString(data, pos);
    match x.parse(text)
    case None => Throw
    case Some(id) =>
      var (index, p2) :- GetI16LE(data, p1);
      Got(S.ChunkRequest(id, index), p2)
  }

  /** The client's side of it. */
  function EncChunkRequest(x: UuidText, id: Uuid, index: int): Bytes {
    EncString(x.format(id)) + EncI16LE(index)
  }

  class ResourcePackChunkRequestPacket {
    var packId: Uuid
    var packVersion: Bytes
    var chunkIndex: int

    method DecodePayload(x: UuidText, input: BinaryReader) returns (ok: bool)
      requires input.Valid()
      modifies this, input
      ensures match GetChunkRequest(x, input.data, old(input.offset))
              case Throw => !ok
              case Got(e, next) =>
                ok && S.ChunkRequest(packId, chunkIndex) == e && packVersion == [] && input.offset == next
    {
      hide GetString;
      ok := false;
      var packInfo := input.ReadString();
      if packInfo.None? { return; }
      packVersion := [];
      var id := x.parse(packInfo.value);
      if id.None? { return; }
      packId := id.value;
      var index := input.ReadI16LE();
      if index.None? { return; }
      chunkIndex := index.value;
      ok := true;
    }
  }

  lemma RequestRoundTrip(x: UuidText, id: Uuid, index: int, data: Bytes, pos: nat)
    requires x.Lawful() && IsInt16(index) && At(data, pos, EncChunkRequest(x, id, index))
    ensures GetChunkRequest(x, data, pos) ==
            Got(S.ChunkRequest(id, index), pos + |EncChunkRequest(x, id, index)|)
  {
    hide EncString, GetString, EncI16LE, GetI16LE;
    var text := EncString(x.format(id));
    AtSplit(data, pos, text, EncI16LE(index));
    StringRoundTrip(x.format(id), data, pos);
    I16RoundTrip(index, data, pos + |text|);
  }

  /** A message some bytes decode to. */
  ghost predicate Arrives(x: UuidText, e: S.Event) {
    e.ChunkRequest? ==> exists data: Bytes, pos: nat :: IsRead(x, data, pos, e)
  }

  predicate IsRead(x: UuidText, data: Bytes, pos: nat, e: S.Event) {
    var r := GetChunkRequest(x, data, pos);
    r.Got? && r.value == e
  }

  /** Requests arrive for the indices of sixteen bits, and for no others. */
  lemma ArrivesIff(x: UuidText, id: Uuid, index: int)
    requires x.Lawful()
    ensures Arrives(x, S.ChunkRequest(id, index)) <==> IsInt16(index)
  {
    hide GetString, GetI16LE, EncChunkRequest;
    if IsInt16(index) {
      var data := EncChunkRequest(x, id, index);
      assert At(data, 0, data);
      RequestRoundTrip(x, id, index, data, 0);
      assert IsRead(x, data, 0, S.ChunkRequest(id, index));
    }
    if Arrives(x, S.ChunkRequest(id, index)) {
      var data: Bytes, pos: nat :| IsRead(x, data, pos, S.ChunkRequest(id, index));
      var text := GetString(data, pos);
      I16Range(data, text.next);
    }
  }

  ghost predicate Completes(x: UuidText, o: S.Offer, events: seq<S.Event>, id: Uuid)
    requires o.Valid()
  {
    && (forall e :: e in events ==> Arrives(x, e))
    && id in S.Run(o, events).completions
  }

  /** One request for each of the first `n` indices. */
  function AskFor(id: Uuid, n: nat): (r: seq<S.Event>)
    ensures |r| == n && forall i :: 0 <= i < n ==> r[i] == S.ChunkRequest(id, i)
  {
    seq(n, i => S.ChunkRequest(id, i))
  }

  /**
   A client can complete a pack if and only if the pack has between one and 32768 chunks: with more,
   the last indices cannot be asked for, whatever the client sends and however often.
   */
  lemma CompletableIff(x: UuidText, o: S.Offer, id: Uuid)
    requires x.Lawful() && o.Valid() && id in o.packs
    ensures (exists events :: Completes(x, o, events, id)) <==> 0 < o.Count(id) <= 0x8000
  {
    hide S.Run, Arrives, R.ValidRequests, S.Offer.Count;
    if 0 < o.Count(id) <= 0x8000 {
      var events := AskFor(id, o.Count(id));
      AllAsked(x, o, id);
      R.CompletedIffAllRequested(o, events, id);
      assert Completes(x, o, events, id);
    }
    if events :| Completes(x, o, events, id) {
      R.CompletedIffAllRequested(o, events, id);
      if o.Count(id) > 0x8000 {
        assert (id, 0x8000) in R.ValidRequests(o, events);
        R.ValidIsRequested(o, events, id, 0x8000);
        ArrivesIff(x, id, 0x8000);
      }
    }
  }

  lemma AllAsked(x: UuidText, o: S.Offer, id: Uuid)
    requires x.Lawful() && o.Valid() && id in o.packs && o.Count(id) <= 0x8000
    ensures var events := AskFor(id, o.Count(id));
            && (forall e :: e in events ==> Arrives(x, e))
            && forall i: nat :: i < o.Count(id) ==> (id, i) in R.ValidRequests(o, events)
  {
    hide Arrives, R.ValidRequests, S.Offer.Count;
    var events := AskFor(id, o.Count(id));
    forall e | e in events
      ensures Arrives(x, e)
    {
      var i :| 0 <= i < |events| && events[i] == e;
      ArrivesIff(x, id, i);
    }
    forall i: nat | i < o.Count(id)
      ensures (id, i) in R.ValidRequests(o, events)
    {
      assert events[i] == S.ChunkRequest(id, i);
      R.RequestedIsValid(o, events, id, i);
    }
  }
}
