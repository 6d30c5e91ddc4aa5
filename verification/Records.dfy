/** The compound records: resource pack entries, the nested login request, experiment toggles. */
module Records {
  import opened Common
  import opened Bits
  import opened Codec
  import opened BinaryIO

  // ----- ResourcePackInfoEntry -----

  datatype InfoEntry = InfoEntry(
    packId: Uuid, packVersion: Bytes, packSize: nat, encryptionKey: Bytes, subPackName: Bytes,
    contentIdentity: Bytes, scripting: bool, addonPack: bool, raytracingCapable: bool, cdnUrl: Bytes)
  {
    /** The widths of the C++ fields; string lengths are written as 32-bit varints. */
    predicate Fits() {
      && packSize < TWO_64
      && |packVersion| < TWO_32 && |encryptionKey| < TWO_32 && |subPackName| < TWO_32
      && |contentIdentity| < TWO_32 && |cdnUrl| < TWO_32
    }
  }

  function EncInfoHead(e: InfoEntry): Bytes {
    EncUUID(e.packId) + EncString(e.packVersion) + EncLE(e.packSize, 8)
  }

  function EncInfoNames(e: InfoEntry): Bytes {
    EncString(e.encryptionKey) + EncString(e.subPackName) + EncString(e.contentIdentity)
  }

  function EncInfoTail(e: InfoEntry): Bytes {
    EncBool(e.scripting) + EncBool(e.addonPack) + EncBool(e.raytracingCapable) + EncString(e.cdnUrl)
  }

  function EncInfo(e: InfoEntry): Bytes {
    EncInfoHead(e) + EncInfoNames(e) + EncInfoTail(e)
  }

  function GetInfo(data: Bytes, pos: nat): Read<InfoEntry> {
    var (packId, p1) :- GetUUID(data, pos);
    var (packVersion, p2) :- GetString(data, p1);
    var (packSize, p3) :- GetLE(data, p2, 8);
    var (encryptionKey, p4) :- GetString(data, p3);
    var (subPackName, p5) :- GetString(data, p4);
    var (contentIdentity, p6) :- GetString(data, p5);
    var (scripting, p7) :- GetBool(data, p6);
    var (addonPack, p8) :- GetBool(data, p7);
    var (raytracingCapable, p9) :- GetBool(data, p8);
    var (cdnUrl, p10) :- GetString(data, p9);
    Got(InfoEntry(packId, packVersion, packSize, encryptionKey, subPackName,
                  contentIdentity, scripting, addonPack, raytracingCapable, cdnUrl), p10)
  }

  lemma InfoHeadRoundTrip(e: InfoEntry, data: Bytes, pos: nat)
    requires e.Fits() && At(data, pos, EncInfoHead(e))
    ensures GetUUID(data, pos) == Got(e.packId, pos + 16)
    ensures GetString(data, pos + 16) == Got(e.packVersion, pos + 16 + |EncString(e.packVersion)|)
    ensures GetLE(data, pos + 16 + |EncString(e.packVersion)|, 8) == Got(e.packSize, pos + |EncInfoHead(e)|)
  {
    hide GetUUID, GetString, GetLE, EncString, EncUUID, EncLE, Pow2;
    AtSplit(data, pos, EncUUID(e.packId) + EncString(e.packVersion), EncLE(e.packSize, 8));
    AtSplit(data, pos, EncUUID(e.packId), EncString(e.packVersion));
    UUIDRoundTrip(e.packId, data, pos);
    StringRoundTrip(e.packVersion, data, pos + 16);
    WidthBounds();
    LERoundTrip(e.packSize, 8, data, pos + 16 + |EncString(e.packVersion)|);
  }

  lemma InfoNamesRoundTrip(e: InfoEntry, data: Bytes, pos: nat)
    requires e.Fits() && At(data, pos, EncInfoNames(e))
    ensures var p5 := pos + |EncString(e.encryptionKey)|;
            var p6 := p5 + |EncString(e.subPackName)|;
            && GetString(data, pos) == Got(e.encryptionKey, p5)
            && GetString(data, p5) == Got(e.subPackName, p6)
            && GetString(data, p6) == Got(e.contentIdentity, pos + |EncInfoNames(e)|)
  {
    hide GetString, EncString;
    var a, b, c := EncString(e.encryptionKey), EncString(e.subPackName), EncString(e.contentIdentity);
    AtSplit(data, pos, a + b, c);
    AtSplit(data, pos, a, b);
    StringRoundTrip(e.encryptionKey, data, pos);
    StringRoundTrip(e.subPackName, data, pos + |a|);
    StringRoundTrip(e.contentIdentity, data, pos + |a| + |b|);
  }

  lemma InfoTailRoundTrip(e: InfoEntry, data: Bytes, pos: nat)
    requires e.Fits() && At(data, pos, EncInfoTail(e))
    ensures GetBool(data, pos) == Got(e.scripting, pos + 1)
    ensures GetBool(data, pos + 1) == Got(e.addonPack, pos + 2)
    ensures GetBool(data, pos + 2) == Got(e.raytracingCapable, pos + 3)
    ensures GetString(data, pos + 3) == Got(e.cdnUrl, pos + |EncInfoTail(e)|)
  {
    hide GetString, EncString, GetBool;
    var a, b, c := EncBool(e.scripting), EncBool(e.addonPack), EncBool(e.raytracingCapable);
    AtSplit(data, pos, a + b + c, EncString(e.cdnUrl));
    AtSplit(data, pos, a + b, c);
    AtSplit(data, pos, a, b);
    BoolRoundTrip(e.scripting, data, pos);
    BoolRoundTrip(e.addonPack, data, pos + 1);
    BoolRoundTrip(e.raytracingCapable, data, pos + 2);
    StringRoundTrip(e.cdnUrl, data, pos + 3);
  }

  /** An entry decodes to what was encoded and consumes exactly its bytes, whatever surrounds them. */
  lemma InfoRoundTrip(e: InfoEntry, data: Bytes, pos: nat)
    requires e.Fits() && At(data, pos, EncInfo(e))
    ensures GetInfo(data, pos) == Got(e, pos + |EncInfo(e)|)
  {
    hide GetUUID, GetString, GetLE, GetBool, EncString, EncUUID, EncLE, EncInfoHead, EncInfoNames, EncInfoTail;
    AtSplit(data, pos, EncInfoHead(e) + EncInfoNames(e), EncInfoTail(e));
    AtSplit(data, pos, EncInfoHead(e), EncInfoNames(e));
    InfoHeadRoundTrip(e, data, pos);
    InfoNamesRoundTrip(e, data, pos + |EncInfoHead(e)|);
    InfoTailRoundTrip(e, data, pos + |EncInfoHead(e)| + |EncInfoNames(e)|);
  }

  class ResourcePackInfoEntry {
    var packId: Uuid
    var packVersion: Bytes
    var packSize: nat
    var encryptionKey: Bytes
    var subPackName: Bytes
    var contentIdentity: Bytes
    var scripting: bool
    var addonPack: bool
    var raytracingCapable: bool
    var cdnUrl: Bytes

    function View(): InfoEntry
      reads this
    {
      InfoEntry(packId, packVersion, packSize, encryptionKey, subPackName,
                contentIdentity, scripting, addonPack, raytracingCapable, cdnUrl)
    }

    method Encode(out: BinaryWriter)
      modifies out
      ensures out.buffer == old(out.buffer) + EncInfo(View())
    {
      hide EncInfoHead, EncInfoNames, EncInfoTail;
      EncodeHead(out);
      EncodeNames(out);
      EncodeTail(out);
    }

    method EncodeHead(out: BinaryWriter)
      modifies out
      ensures out.buffer == old(out.buffer) + EncInfoHead(View())
    {
      hide EncString, EncUUID, EncLE;
      out.WriteUUID(packId);
      out.WriteString(packVersion);
      out.WriteLE(packSize, 8);
    }

    method EncodeNames(out: BinaryWriter)
      modifies out
      ensures out.buffer == old(out.buffer) + EncInfoNames(View())
    {
      hide EncString;
      out.WriteString(encryptionKey);
      out.WriteString(subPackName);
      out.WriteString(contentIdentity);
    }

    method EncodeTail(out: BinaryWriter)
      modifies out
      ensures out.buffer == old(out.buffer) + EncInfoTail(View())
    {
      hide EncString, EncBool;
      out.WriteBool(scripting);
      out.WriteBool(addonPack);
      out.WriteBool(raytracingCapable);
      out.WriteString(cdnUrl);
    }

    method Decode(input: BinaryReader) returns (ok: bool)
      requires input.Valid()
      modifies this, input
      ensures input.Valid()
      ensures match GetInfo(input.data, old(input.offset))
              case Throw => !ok
              case Got(e, next) => ok && View() == e && input.offset == next
    {
      hide GetUUID, GetString, GetLE, GetBool;
      ok := false;
      var id := input.ReadUUID();
      if id.None? { return; }
      packId := id.value;
      var s := input.ReadString();
      if s.None? { return; }
      packVersion := s.value;
      var n := input.ReadLE(8);
      if n.None? { return; }
      packSize := n.value;
      s := input.ReadString();
      if s.None? { return; }
      encryptionKey := s.value;
      s := input.ReadString();
      if s.None? { return; }
      subPackName := s.value;
      s := input.ReadString();
      if s.None? { return; }
      contentIdentity := s.value;
      var b := input.ReadBool();
      if b.None? { return; }
      scripting := b.value;
      b := input.ReadBool();
      if b.None? { return; }
      addonPack := b.value;
      b := input.ReadBool();
      if b.None? { return; }
      raytracingCapable := b.value;
      s := input.ReadString();
      if s.None? { return; }
      cdnUrl := s.value;
      ok := true;
    }
  }

  // ----- LoginPacket -----

  datatype Login = Login(protocol: nat, authInfoJson: Bytes, clientDataJwt: Bytes) {
    predicate Fits() {
      protocol < TWO_32 && |authInfoJson| + |clientDataJwt| + 8 < TWO_32
    }
  }

  function EncRequest(l: Login): Bytes {
    EncStringU32LE(l.authInfoJson) + EncStringU32LE(l.clientDataJwt)
  }

  function EncLogin(l: Login): Bytes {
    EncBE(l.protocol, 4) + EncString(EncRequest(l))
  }

  /** The request is read by a second reader, over the bytes of the string alone. */
  function GetLogin(data: Bytes, pos: nat): Read<Login> {
    var (protocol, p1) :- GetBE(data, pos, 4);
    var (binary, p2) :- GetString(data, p1);
    var (authInfoJson, q1) :- GetStringU32LE(binary, 0);
    var (clientDataJwt, _) :- GetStringU32LE(binary, q1);
    Got(Login(protocol, authInfoJson, clientDataJwt), p2)
  }

  lemma RequestRoundTrip(l: Login)
    requires l.Fits()
    ensures |EncRequest(l)| < TWO_32
    ensures GetStringU32LE(EncRequest(l), 0) == Got(l.authInfoJson, 4 + |l.authInfoJson|)
    ensures GetStringU32LE(EncRequest(l), 4 + |l.authInfoJson|) == Got(l.clientDataJwt, |EncRequest(l)|)
  {
    hide GetStringU32LE, EncLE;
    var r := EncRequest(l);
    assert At(r, 0, r);
    AtSplit(r, 0, EncStringU32LE(l.authInfoJson), EncStringU32LE(l.clientDataJwt));
    StringU32LERoundTrip(l.authInfoJson, r, 0);
    StringU32LERoundTrip(l.clientDataJwt, r, 4 + |l.authInfoJson|);
  }

  lemma LoginRoundTrip(l: Login, data: Bytes, pos: nat)
    requires l.Fits() && At(data, pos, EncLogin(l))
    ensures GetLogin(data, pos) == Got(l, pos + |EncLogin(l)|)
  {
    hide EncString, GetString, EncStringU32LE, GetStringU32LE, EncBE, GetBE, Pow2;
    RequestRoundTrip(l);
    AtSplit(data, pos, EncBE(l.protocol, 4), EncString(EncRequest(l)));
    WidthBounds();
    BERoundTrip(l.protocol, 4, data, pos);
    StringRoundTrip(EncRequest(l), data, pos + 4);
  }

  class LoginPacket {
    var protocol: nat
    var authInfoJson: Bytes
    var clientDataJwt: Bytes

    function View(): Login
      reads this
    {
      Login(protocol, authInfoJson, clientDataJwt)
    }

    method EncodePayload(out: BinaryWriter)
      modifies out
      ensures out.buffer == old(out.buffer) + EncLogin(View())
    {
      hide EncBE, EncString, EncRequest;
      ghost var before := out.buffer;
      out.WriteBE(protocol, 4);
      var request := TryEncodeRequest();
      out.WriteString(request);
      Assoc(before, EncBE(protocol, 4), EncString(request));
    }

    method TryEncodeRequest() returns (request: Bytes)
      ensures request == EncRequest(View())
    {
      var cr := new BinaryWriter();
      cr.WriteStringU32LE(authInfoJson);
      cr.WriteStringU32LE(clientDataJwt);
      request := cr.buffer;
    }

    method DecodePayload(input: BinaryReader) returns (ok: bool)
      requires input.Valid()
      modifies this, input
      ensures match GetLogin(input.data, old(input.offset))
              case Throw => !ok
              case Got(l, next) => ok && View() == l && input.offset == next
    {
      ok := false;
      var n := input.ReadBE(4);
      if n.None? { return; }
      protocol := n.value;
      var binary := input.ReadString();
      if binary.None? { return; }
      var cr := new BinaryReader(binary.value);
      var s := cr.ReadStringU32LE();
      if s.None? { return; }
      authInfoJson := s.value;
      s := cr.ReadStringU32LE();
      if s.None? { return; }
      clientDataJwt := s.value;
      ok := true;
    }
  }

  // ----- Experiments -----

  datatype Toggle = Toggle(name: Bytes, enabled: bool)

  datatype ExperimentSet = ExperimentSet(active: seq<Toggle>, alwaysOn: seq<Toggle>, everToggled: bool) {
    predicate Fits() {
      && |active| + |alwaysOn| < TWO_32
      && forall t <- active + alwaysOn :: |t.name| < TWO_32
    }
  }

  function EncToggle(t: Toggle): Bytes { EncString(t.name) + EncBool(t.enabled) }

  function EncToggles(ts: seq<Toggle>): (r: Bytes)
    ensures ts == [] ==> r == []
  {
    if ts == [] then [] else EncToggle(ts[0]) + EncToggles(ts[1..])
  }

  function EncExperiments(e: ExperimentSet): Bytes {
    EncLE((|e.active| + |e.alwaysOn|) % TWO_32, 4) + EncToggles(e.active) + EncToggles(e.alwaysOn)
    + EncBool(e.everToggled)
  }

  function GetToggle(data: Bytes, pos: nat): Read<Toggle> {
    var (name, p1) :- GetString(data, pos);
    var (enabled, p2) :- GetBool(data, p1);
    Got(Toggle(name, enabled), p2)
  }

  function GetToggles(data: Bytes, pos: nat, n: nat): Read<seq<Toggle>>
    decreases n
  {
    if n == 0 then Got([], pos)
    else
      var (t, p1) :- GetToggle(data, pos);
      var (ts, p2) :- GetToggles(data, p1, n - 1);
      Got([t] + ts, p2)
  }

  /** Both lists come back as one: the wire does not say where the first ends. */
  function GetExperiments(data: Bytes, pos: nat): Read<ExperimentSet> {
    var (total, p1) :- GetLE(data, pos, 4);
    var (toggles, p2) :- GetToggles(data, p1, total);
    var (ever, p3) :- GetBool(data, p2);
    Got(ExperimentSet(toggles, [], ever), p3)
  }

  lemma {:induction false} EncTogglesConcat(a: seq<Toggle>, b: seq<Toggle>)
    ensures EncToggles(a + b) == EncToggles(a) + EncToggles(b)
  {
    hide EncToggle;
    if a == [] {
      assert a + b == b;
    } else {
      TailOfConcat(a, b);
      EncTogglesConcat(a[1..], b);
      Assoc(EncToggle(a[0]), EncToggles(a[1..]), EncToggles(b));
    }
  }

  lemma ToggleRoundTrip(t: Toggle, data: Bytes, pos: nat)
    requires |t.name| < TWO_32 && At(data, pos, EncToggle(t))
    ensures GetToggle(data, pos) == Got(t, pos + |EncToggle(t)|)
  {
    hide GetString, EncString, GetBool, EncBool;
    AtSplit(data, pos, EncString(t.name), EncBool(t.enabled));
    StringRoundTrip(t.name, data, pos);
    BoolRoundTrip(t.enabled, data, pos + |EncString(t.name)|);
  }

  lemma {:induction false} TogglesRoundTrip(ts: seq<Toggle>, data: Bytes, pos: nat)
    requires forall t <- ts :: |t.name| < TWO_32
    requires At(data, pos, EncToggles(ts))
    ensures GetToggles(data, pos, |ts|) == Got(ts, pos + |EncToggles(ts)|)
  {
    hide EncToggle, GetToggle, GetToggles, At;
    GetTogglesCases(data, pos, |ts|);
    if ts != [] {
      var t, rest := ts[0], ts[1..];
      AtSplit(data, pos, EncToggle(t), EncToggles(rest));
      ToggleRoundTrip(t, data, pos);
      TogglesRoundTrip(rest, data, pos + |EncToggle(t)|);
      assert ts == [t] + rest;
    }
  }

  lemma GetTogglesCases(data: Bytes, pos: nat, n: nat)
    ensures GetToggles(data, pos, n) ==
            if n == 0 then Got([], pos)
            else match GetToggle(data, pos)
              case Throw => Throw
              case Got(t, p1) =>
                match GetToggles(data, p1, n - 1)
                case Throw => Throw
                case Got(ts, p2) => Got([t] + ts, p2)
  {}

  /** Decoding merges the two lists, and encoding the result again gives the same bytes. */
  lemma ExperimentsRoundTrip(e: ExperimentSet, data: Bytes, pos: nat)
    requires e.Fits() && At(data, pos, EncExperiments(e))
    ensures var merged := ExperimentSet(e.active + e.alwaysOn, [], e.everToggled);
            && GetExperiments(data, pos) == Got(merged, pos + |EncExperiments(e)|)
            && EncExperiments(merged) == EncExperiments(e)
  {
    hide EncLE, EncToggles, EncBool, GetLE, GetToggles, GetBool, Pow2;
    var ts := e.active + e.alwaysOn;
    EncTogglesConcat(e.active, e.alwaysOn);
    var head := EncLE(|ts|, 4);
    var merged := ExperimentSet(ts, [], e.everToggled);
    assert EncExperiments(e) == head + EncToggles(ts) + EncBool(e.everToggled);
    assert EncExperiments(merged) == head + EncToggles(ts) + EncBool(e.everToggled);
    AtSplit(data, pos, head + EncToggles(ts), EncBool(e.everToggled));
    AtSplit(data, pos, head, EncToggles(ts));
    WidthBounds();
    LERoundTrip(|ts|, 4, data, pos);
    TogglesRoundTrip(ts, data, pos + 4);
    BoolRoundTrip(e.everToggled, data, pos + 4 + |EncToggles(ts)|);
  }

  class Experiments {
    var activeToggles: seq<Toggle>
    var alwaysOnToggles: seq<Toggle>
    var wereAnyExperimentsEverToggled: bool

    function View(): ExperimentSet
      reads this
    {
      ExperimentSet(activeToggles, alwaysOnToggles, wereAnyExperimentsEverToggled)
    }

    method Encode(out: BinaryWriter)
      modifies out
      ensures out.buffer == old(out.buffer) + EncExperiments(View())
    {
      hide EncLE, EncToggles, EncBool;
      out.WriteLE((|activeToggles| + |alwaysOnToggles|) % TWO_32, 4);
      EncodeToggles(activeToggles, out);
      EncodeToggles(alwaysOnToggles, out);
      out.WriteBool(wereAnyExperimentsEverToggled);
    }

    method Decode(input: BinaryReader) returns (ok: bool)
      requires input.Valid()
      modifies this, input
      ensures match GetExperiments(input.data, old(input.offset))
              case Throw => !ok
              case Got(e, next) => ok && View() == e && input.offset == next
    {
      hide GetString, GetLE, GetBool;
      ok := false;
      var total := input.ReadLE(4);
      if total.None? { return; }
      activeToggles, alwaysOnToggles := [], [];
      ghost var start := input.offset;
      forall rest: seq<Toggle>
        ensures activeToggles + rest == rest
      {}
      for i := 0 to total.value
        invariant input.Valid() && alwaysOnToggles == []
        invariant GetToggles(input.data, start, total.value) ==
                  match GetToggles(input.data, input.offset, total.value - i)
                  case Throw => Throw
                  case Got(rest, next) => Got(activeToggles + rest, next)
      {
        var name := input.ReadString();
        if name.None? { return; }
        var enabled := input.ReadBool();
        if enabled.None? { return; }
        var t := Toggle(name.value, enabled.value);
        forall rest: seq<Toggle>
          ensures activeToggles + ([t] + rest) == (activeToggles + [t]) + rest
        {}
        activeToggles := activeToggles + [t];
      }
      var ever := input.ReadBool();
      if ever.None? { return; }
      wereAnyExperimentsEverToggled := ever.value;
      ok := true;
    }
  }

  method EncodeToggles(ts: seq<Toggle>, out: BinaryWriter)
    modifies out
    ensures out.buffer == old(out.buffer) + EncToggles(ts)
  {
    for i := 0 to |ts|
      invariant out.buffer + EncToggles(ts[i..]) == old(out.buffer) + EncToggles(ts)
    {
      hide EncString, EncBool, EncToggles;
      TogglesStep(out.buffer, ts, i);
      out.WriteString(ts[i].name);
      out.WriteBool(ts[i].enabled);
    }
  }

  lemma TogglesStep(buffer: Bytes, ts: seq<Toggle>, i: nat)
    requires i < |ts|
    ensures buffer + EncToggles(ts[i..]) ==
            ((buffer + EncString(ts[i].name)) + EncBool(ts[i].enabled)) + EncToggles(ts[i + 1..])
  {
    hide EncString, EncBool;
    assert ts[i..][1..] == ts[i + 1..];
    var name, enabled, rest := EncString(ts[i].name), EncBool(ts[i].enabled), EncToggles(ts[i + 1..]);
    Assoc(buffer, name + enabled, rest);
    Assoc(buffer, name, enabled);
  }
}
