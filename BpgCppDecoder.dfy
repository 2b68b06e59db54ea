/** The C++ BPG streaming decoder (`bpg_decoder.cpp`): bytes arrive in chunks, are kept in a
    buffer until a whole packet is there, and packets are collected per group; an "EG" packet
    hands its group to the group callback. The callbacks are modelled by the list of calls
    they receive. */
module BpgCppDecoder {
  import opened Bytes
  import BpgTypes
  import opened BpgCppEncoder

  /** A call of the packet callback, or of the group callback with the completed group. */
  datatype Event = PacketDecoded(packet: AppPacket) | GroupCompleted(groupId: u32, group: seq<AppPacket>)

  type Groups = map<u32, seq<AppPacket>>

  /** Which callbacks the caller supplied; an empty `std::function` is never called. */
  datatype Callbacks = Callbacks(onPacket: bool, onGroup: bool)

  /** `deserializeHeader`: fails only on a buffer shorter than the header; otherwise reads
      group id, target id, type letters and data length back to back from the front. */
  function DeserializeHeader(buffer: seq<byte>): (r: Option<PacketHeader>)
    ensures r.Some? <==> |buffer| >= HEADER_STRUCT_SIZE
  {
    if |buffer| < HEADER_STRUCT_SIZE then None
    else Some(PacketHeader(ReadU32BE(buffer, 0), ReadU32BE(buffer, 4), buffer[8..10], ReadU32BE(buffer, 10)))
  }

  datatype AppDataResult = AppDataOk(content: HybridData) | AppDataError(error: BpgTypes.BpgError)

  /** `deserializeAppData` on the bytes after the header: the metadata length, that many
      metadata bytes, and the rest of the `data_length` bytes as binary data. A payload too
      short for the length field, or whose metadata overruns it, is a `DecodingError`; a good
      payload encodes back to exactly the bytes it was read from. */
  function DeserializeAppData(header: PacketHeader, data: seq<byte>): (r: AppDataResult)
    requires header.dataLength <= |data|
    ensures r.AppDataError? <==>
      (header.dataLength < BpgTypes.JSON_LENGTH_SIZE || BpgTypes.JSON_LENGTH_SIZE + ReadU32BE(data, 0) > header.dataLength)
    ensures r.AppDataError? ==> r.error == BpgTypes.DecodingError
    ensures r.AppDataOk? ==> AppDataBytes(r.content) == data[..header.dataLength]
  {
    if header.dataLength < BpgTypes.JSON_LENGTH_SIZE then AppDataError(BpgTypes.DecodingError)
    else
      var jsonLen := ReadU32BE(data, 0);
      if BpgTypes.JSON_LENGTH_SIZE + jsonLen > header.dataLength then AppDataError(BpgTypes.DecodingError)
      else
        var metadata := if jsonLen > 0 then data[BpgTypes.JSON_LENGTH_SIZE..BpgTypes.JSON_LENGTH_SIZE + jsonLen] else [];
        var binaryLen := header.dataLength - BpgTypes.JSON_LENGTH_SIZE - jsonLen;
        var binary := if binaryLen > 0 then data[BpgTypes.JSON_LENGTH_SIZE + jsonLen..header.dataLength] else [];
        AppDataReencodes(data, header.dataLength, jsonLen, metadata, binary);
        AppDataOk(HybridData(metadata, binary))
  }

  lemma AppDataReencodes(data: seq<byte>, len: nat, jsonLen: u32, metadata: seq<byte>, binary: seq<byte>)
    requires BpgTypes.JSON_LENGTH_SIZE + jsonLen <= len <= |data| && jsonLen == ReadU32BE(data, 0)
    requires metadata == data[BpgTypes.JSON_LENGTH_SIZE..BpgTypes.JSON_LENGTH_SIZE + jsonLen]
    requires binary == data[BpgTypes.JSON_LENGTH_SIZE + jsonLen..len]
    ensures AppDataBytes(HybridData(metadata, binary)) == data[..len]
  {
    WriteAfterRead(data, 0);
    assert metadata[..jsonLen] == metadata;
    assert data[..len] == data[..4] + metadata + binary;
  }

  /** The group list for `groupId`, empty when the map has none (`operator[]`). */
  function GroupOf(groups: Groups, groupId: u32): seq<AppPacket>
  {
    if groupId in groups then groups[groupId] else []
  }

  datatype Delivery = Delivery(groups: Groups, events: seq<Event>)

  /** What `tryParsePacket` does with a good packet: append it to its group, report the stored
      packet, and for "EG" hand the group to the group callback and erase it. Without a group
      callback an "EG" group is neither handed over nor erased. */
  function Deliver(groups: Groups, p: AppPacket, cbs: Callbacks): (r: Delivery)
    ensures r.groups - {p.groupId} == groups - {p.groupId}
    ensures p.groupId in r.groups <==> !(p.tl == END_GROUP && cbs.onGroup)
    ensures p.groupId in r.groups ==> r.groups[p.groupId] == GroupOf(groups, p.groupId) + [p]
    ensures |r.events| == (if cbs.onPacket then 1 else 0) + (if p.tl == END_GROUP && cbs.onGroup then 1 else 0)
  {
    var group := GroupOf(groups, p.groupId) + [p];
    var stored := groups[p.groupId := group];
    var reported := if cbs.onPacket then [PacketDecoded(p)] else [];
    if p.tl == END_GROUP && cbs.onGroup then
      Delivery(stored - {p.groupId}, reported + [GroupCompleted(p.groupId, group)])
    else
      Delivery(stored, reported)
  }

  /** The decoder state after some packets were taken off the buffer, and the callback calls. */
  datatype Drained = Drained(rest: seq<byte>, groups: Groups, events: seq<Event>)

  /** One `tryParsePacket` call: `None` when it returns false (buffer shorter than the header
      or than the whole packet, nothing consumed); otherwise the whole packet is erased from
      the front, and it is delivered when its payload decodes and dropped unreported when not. */
  function TryParse(buf: seq<byte>, groups: Groups, cbs: Callbacks): (r: Option<Drained>)
    ensures r.None? <==>
      (|buf| < HEADER_STRUCT_SIZE || |buf| < HEADER_STRUCT_SIZE + ReadU32BE(buf, 10))
    ensures r.Some? ==> r.value.rest == buf[HEADER_STRUCT_SIZE + ReadU32BE(buf, 10)..]
  {
    if |buf| < HEADER_STRUCT_SIZE then None
    else
      var header := DeserializeHeader(buf).value;
      var total := HEADER_STRUCT_SIZE + header.dataLength;
      if |buf| < total then None
      else match DeserializeAppData(header, buf[HEADER_STRUCT_SIZE..])
        case AppDataError(_) => Some(Drained(buf[total..], groups, []))
        case AppDataOk(content) =>
          var d := Deliver(groups, AppPacket(header.groupId, header.targetId, header.tl, content), cbs);
          Some(Drained(buf[total..], d.groups, d.events))
  }

  /** The `while (tryParsePacket(...))` loop as a function. */
  function Drain(buf: seq<byte>, groups: Groups, cbs: Callbacks): Drained
    decreases |buf|
  {
    match TryParse(buf, groups, cbs)
    case None => Drained(buf, groups, [])
    case Some(s) => After(s.events, Drain(s.rest, s.groups, cbs))
  }

  lemma DrainStops(buf: seq<byte>, groups: Groups, cbs: Callbacks)
    requires TryParse(buf, groups, cbs).None?
    ensures Drain(buf, groups, cbs) == Drained(buf, groups, [])
  {
  }

  lemma DrainGoesOn(buf: seq<byte>, groups: Groups, cbs: Callbacks)
    requires TryParse(buf, groups, cbs).Some?
    ensures var s := TryParse(buf, groups, cbs).value;
      Drain(buf, groups, cbs) == After(s.events, Drain(s.rest, s.groups, cbs))
  {
  }

  /** `d` with the calls `earlier` made before it. */
  function After(earlier: seq<Event>, d: Drained): Drained
  {
    Drained(d.rest, d.groups, earlier + d.events)
  }

  lemma AfterAfter(a: seq<Event>, b: seq<Event>, d: Drained)
    ensures After(a, After(b, d)) == After(a + b, d)
  {
    assert a + (b + d.events) == (a + b) + d.events;
  }

  class BpgDecoder {
    var internalBuffer: seq<byte>
    var activeGroups: Groups

    constructor ()
      ensures internalBuffer == [] && activeGroups == map[]
    {
      internalBuffer := [];
      activeGroups := map[];
    }

    /** `reset`: clear the buffer and the group map. */
    method Reset()
      modifies this
      ensures internalBuffer == [] && activeGroups == map[]
    {
      internalBuffer := [];
      activeGroups := map[];
    }

    /** `tryParsePacket`. */
    method TryParsePacket(cbs: Callbacks) returns (parsed: bool, events: seq<Event>)
      modifies this
      ensures parsed <==> TryParse(old(internalBuffer), old(activeGroups), cbs).Some?
      ensures parsed ==>
        Drained(internalBuffer, activeGroups, events) == TryParse(old(internalBuffer), old(activeGroups), cbs).value
      ensures !parsed ==>
        internalBuffer == old(internalBuffer) && activeGroups == old(activeGroups) && events == []
    {
      events := [];
      if |internalBuffer| < HEADER_STRUCT_SIZE {
        return false, [];
      }
      var header := DeserializeHeader(internalBuffer);
      // Only a buffer shorter than the header makes `deserializeHeader` fail, and that was
      // excluded above, so its `reset(); return false;` path is never taken.
      assert header.Some?;
      var h := header.value;
      var totalPacketSize := HEADER_STRUCT_SIZE + h.dataLength;
      if |internalBuffer| < totalPacketSize {
        return false, [];
      }
      var dataErr := DeserializeAppData(h, internalBuffer[HEADER_STRUCT_SIZE..]);
      var appPacket := AppPacket(h.groupId, h.targetId, h.tl, HybridData([], []));
      if dataErr.AppDataOk? {
        appPacket := appPacket.(content := dataErr.content);
        activeGroups := activeGroups[appPacket.groupId := GroupOf(activeGroups, appPacket.groupId) + [appPacket]];
      }
      var isEndGroup := dataErr.AppDataOk? && appPacket.tl == END_GROUP;
      var completedGroupId := if isEndGroup then appPacket.groupId else 0;
      internalBuffer := internalBuffer[totalPacketSize..];
      if dataErr.AppDataOk? {
        if cbs.onPacket {
          var stored := activeGroups[h.groupId];
          events := events + [PacketDecoded(stored[|stored| - 1])];
        }
        if isEndGroup && cbs.onGroup {
          if completedGroupId in activeGroups {
            events := events + [GroupCompleted(completedGroupId, activeGroups[completedGroupId])];
            activeGroups := activeGroups - {completedGroupId};
          }
        }
      }
      return true, events;
    }

    /** `processData`: a null or empty chunk changes nothing; otherwise the chunk is appended
        and packets are parsed until `tryParsePacket` returns false. Always `Success`. */
    method ProcessData(data: Option<seq<byte>>, cbs: Callbacks) returns (err: BpgTypes.BpgError, events: seq<Event>)
      modifies this
      ensures err == BpgTypes.Success
      ensures (data.None? || data.value == []) ==>
        internalBuffer == old(internalBuffer) && activeGroups == old(activeGroups) && events == []
      ensures data.Some? && data.value != [] ==>
        Drained(internalBuffer, activeGroups, events) == Drain(old(internalBuffer) + data.value, old(activeGroups), cbs)
    {
      if data.None? || |data.value| == 0 {
        return BpgTypes.Success, [];
      }
      internalBuffer := internalBuffer + data.value;
      events := [];
      ghost var target := Drain(internalBuffer, activeGroups, cbs);
      while true
        invariant After(events, Drain(internalBuffer, activeGroups, cbs)) == target
        decreases |internalBuffer|
      {
        ghost var before := Drained(internalBuffer, activeGroups, []);
        var parsed, fired := TryParsePacket(cbs);
        if !parsed {
          DrainStops(internalBuffer, activeGroups, cbs);
          break;
        }
        DrainGoesOn(before.rest, before.groups, cbs);
        AfterAfter(events, fired, Drain(internalBuffer, activeGroups, cbs));
        events := events + fired;
      }
      assert events + [] == events;
      return BpgTypes.Success, events;
    }
  }

  // ---------------------------------------------------------------- properties

  /** The decoder reads the header fields where and as the encoder writes them. */
  lemma HeaderRoundTrip(h: PacketHeader, more: seq<byte>)
    ensures DeserializeHeader(HeaderBytes(h) + more) == Some(h)
  {
    var b := HeaderBytes(h) + more;
    var tail := Zeros(HEADER_STRUCT_SIZE - HEADER_FIELDS_SIZE);
    assert b == U32BE(h.groupId) + U32BE(h.targetId) + h.tl + U32BE(h.dataLength) + (tail + more);
    ReadU32BEAt(b, 0, h.groupId);
    ReadU32BEAt(b, 4, h.targetId);
    ReadU32BEAt(b, 10, h.dataLength);
    assert b[8..10] == h.tl;
  }

  /** A payload that is too short for its length field, or whose metadata length overruns
      `data_length`, is erased with the packet; no callback fires and no group changes. */
  lemma BadPayloadDropped(buf: seq<byte>, groups: Groups, cbs: Callbacks)
    requires |buf| >= HEADER_STRUCT_SIZE && |buf| >= HEADER_STRUCT_SIZE + ReadU32BE(buf, 10)
    requires var len := ReadU32BE(buf, 10);
      len < BpgTypes.JSON_LENGTH_SIZE || BpgTypes.JSON_LENGTH_SIZE + ReadU32BE(buf, HEADER_STRUCT_SIZE) > len
    ensures TryParse(buf, groups, cbs) == Some(Drained(buf[HEADER_STRUCT_SIZE + ReadU32BE(buf, 10)..], groups, []))
  {
    var len := ReadU32BE(buf, 10);
    if len >= BpgTypes.JSON_LENGTH_SIZE {
      assert ReadU32BE(buf[HEADER_STRUCT_SIZE..], 0) == ReadU32BE(buf, HEADER_STRUCT_SIZE);
    }
  }

  /** `tryParsePacket` on a whole packet whose header and payload decode. */
  lemma TryParseDelivers(buf: seq<byte>, groups: Groups, cbs: Callbacks, h: PacketHeader, content: HybridData)
    requires DeserializeHeader(buf) == Some(h) && |buf| >= HEADER_STRUCT_SIZE + h.dataLength
    requires DeserializeAppData(h, buf[HEADER_STRUCT_SIZE..]) == AppDataOk(content)
    ensures var d := Deliver(groups, AppPacket(h.groupId, h.targetId, h.tl, content), cbs);
      TryParse(buf, groups, cbs) == Some(Drained(buf[HEADER_STRUCT_SIZE + h.dataLength..], d.groups, d.events))
  {
  }

  /** The payload `deserializeAppData` reads when the lengths are consistent. */
  lemma AppDataContent(h: PacketHeader, data: seq<byte>)
    requires h.dataLength <= |data| && h.dataLength >= BpgTypes.JSON_LENGTH_SIZE
    requires BpgTypes.JSON_LENGTH_SIZE + ReadU32BE(data, 0) <= h.dataLength
    ensures var jsonLen := ReadU32BE(data, 0);
      DeserializeAppData(h, data) ==
        AppDataOk(HybridData(data[BpgTypes.JSON_LENGTH_SIZE..BpgTypes.JSON_LENGTH_SIZE + jsonLen], data[BpgTypes.JSON_LENGTH_SIZE + jsonLen..h.dataLength]))
  {
  }

  /** A good payload is delivered as the packet whose ids and type letters are the header's,
      whose metadata is the `json_len` bytes after the length field and whose binary data is
      the rest of the `data_length` bytes. */
  lemma GoodPayloadDelivered(buf: seq<byte>, groups: Groups, cbs: Callbacks)
    requires |buf| >= HEADER_STRUCT_SIZE && |buf| >= HEADER_STRUCT_SIZE + ReadU32BE(buf, 10)
    requires var len := ReadU32BE(buf, 10);
      len >= BpgTypes.JSON_LENGTH_SIZE && BpgTypes.JSON_LENGTH_SIZE + ReadU32BE(buf, HEADER_STRUCT_SIZE) <= len
    ensures var len := ReadU32BE(buf, 10);
      var start := HEADER_STRUCT_SIZE + BpgTypes.JSON_LENGTH_SIZE;
      var jsonLen := ReadU32BE(buf, HEADER_STRUCT_SIZE);
      var p := AppPacket(ReadU32BE(buf, 0), ReadU32BE(buf, 4), buf[8..10],
        HybridData(buf[start..start + jsonLen], buf[start + jsonLen..HEADER_STRUCT_SIZE + len]));
      var d := Deliver(groups, p, cbs);
      TryParse(buf, groups, cbs) == Some(Drained(buf[HEADER_STRUCT_SIZE + len..], d.groups, d.events))
  {
    var h := DeserializeHeader(buf).value;
    assert h == PacketHeader(ReadU32BE(buf, 0), ReadU32BE(buf, 4), buf[8..10], ReadU32BE(buf, 10));
    var data := buf[HEADER_STRUCT_SIZE..];
    assert ReadU32BE(data, 0) == ReadU32BE(buf, HEADER_STRUCT_SIZE);
    var len := h.dataLength;
    var jsonLen := ReadU32BE(buf, HEADER_STRUCT_SIZE);
    var start := HEADER_STRUCT_SIZE + BpgTypes.JSON_LENGTH_SIZE;
    AppDataContent(h, data);
    assert jsonLen == ReadU32BE(data, 0);
    SliceOfSuffix(buf, HEADER_STRUCT_SIZE, BpgTypes.JSON_LENGTH_SIZE, BpgTypes.JSON_LENGTH_SIZE + jsonLen);
    SliceOfSuffix(buf, HEADER_STRUCT_SIZE, BpgTypes.JSON_LENGTH_SIZE + jsonLen, len);
    TryParseDelivers(buf, groups, cbs, h, DeserializeAppData(h, data).content);
  }

  lemma SliceOfSuffix(s: seq<byte>, k: nat, i: nat, j: nat)
    requires k + j <= |s| && i <= j
    ensures s[k..][i..j] == s[k + i..k + j]
  {
  }

  /** The payload the encoder writes is read back as the same payload, whatever follows it. */
  lemma AppDataRoundTrip(h: PacketHeader, c: HybridData, more: seq<byte>)
    requires CalculateAppDataSize(c) < U32_LIMIT && h.dataLength == CalculateAppDataSize(c)
    ensures h.dataLength <= |AppDataBytes(c) + more|
    ensures DeserializeAppData(h, AppDataBytes(c) + more) == AppDataOk(c)
  {
    var data := AppDataBytes(c) + more;
    var n := |c.metadataJson|;
    ReadAfterWrite(n, [], c.metadataJson + c.binaryBytes + more);
    assert c.metadataJson[..n] == c.metadataJson;
    assert data == [] + U32BE(n) + (c.metadataJson + c.binaryBytes + more);
    assert data[..h.dataLength] == AppDataBytes(c);
    var r := DeserializeAppData(h, data);
    AppDataInjective(r.content, c);
  }

  /** The packet the decoder takes off the front of the buffer is the packet that was
      encoded, whatever bytes follow it. */
  lemma FrameRoundTrip(p: AppPacket, more: seq<byte>, groups: Groups, cbs: Callbacks)
    requires Encodable(p)
    ensures var d := Deliver(groups, p, cbs);
      TryParse(PacketBytes(p) + more, groups, cbs) == Some(Drained(more, d.groups, d.events))
  {
    var b := PacketBytes(p) + more;
    var h := HeaderOf(p);
    var ad := AppDataBytes(p.content);
    assert b == HeaderBytes(h) + (ad + more);
    HeaderRoundTrip(h, ad + more);
    assert b[HEADER_STRUCT_SIZE..] == ad + more;
    AppDataRoundTrip(h, p.content, more);
    TryParseDelivers(b, groups, cbs, h, p.content);
    assert b[HEADER_STRUCT_SIZE + h.dataLength..] == more;
  }

  /** Payloads whose metadata length fits 32 bits are told apart by their encodings. */
  lemma AppDataInjective(x: HybridData, y: HybridData)
    requires |x.metadataJson| < U32_LIMIT && |y.metadataJson| < U32_LIMIT
    requires AppDataBytes(x) == AppDataBytes(y)
    ensures x == y
  {
    var bx, ey := AppDataBytes(x), AppDataBytes(y);
    ReadAfterWrite(|x.metadataJson|, [], x.metadataJson + x.binaryBytes);
    ReadAfterWrite(|y.metadataJson|, [], y.metadataJson + y.binaryBytes);
    assert bx == [] + U32BE(|x.metadataJson|) + (x.metadataJson + x.binaryBytes);
    assert ey == [] + U32BE(|y.metadataJson|) + (y.metadataJson + y.binaryBytes);
    var n := |x.metadataJson|;
    assert bx[4..4 + n] == x.metadataJson && ey[4..4 + n] == y.metadataJson;
    assert bx[4 + n..] == x.binaryBytes && ey[4 + n..] == y.binaryBytes;
  }

  /** `deserializeAppData` looks at the first `data_length` bytes only. */
  lemma AppDataIgnoresTail(h: PacketHeader, data: seq<byte>, more: seq<byte>)
    requires h.dataLength <= |data|
    ensures DeserializeAppData(h, data + more) == DeserializeAppData(h, data)
  {
    var b := data + more;
    if h.dataLength >= BpgTypes.JSON_LENGTH_SIZE {
      assert ReadU32BE(b, 0) == ReadU32BE(data, 0);
      var jsonLen := ReadU32BE(data, 0);
      if BpgTypes.JSON_LENGTH_SIZE + jsonLen <= h.dataLength {
        assert b[BpgTypes.JSON_LENGTH_SIZE..BpgTypes.JSON_LENGTH_SIZE + jsonLen] == data[BpgTypes.JSON_LENGTH_SIZE..BpgTypes.JSON_LENGTH_SIZE + jsonLen];
        assert b[BpgTypes.JSON_LENGTH_SIZE + jsonLen..h.dataLength] == data[BpgTypes.JSON_LENGTH_SIZE + jsonLen..h.dataLength];
      }
    }
  }

  /** Bytes arriving after a whole packet do not change how that packet is handled. */
  lemma TryParseExtend(a: seq<byte>, more: seq<byte>, groups: Groups, cbs: Callbacks)
    requires TryParse(a, groups, cbs).Some?
    ensures var s := TryParse(a, groups, cbs).value;
      TryParse(a + more, groups, cbs) == Some(Drained(s.rest + more, s.groups, s.events))
  {
    var b := a + more;
    var h := DeserializeHeader(a).value;
    assert DeserializeHeader(b) == Some(h) by {
      assert b[8..10] == a[8..10];
      assert ReadU32BE(b, 0) == ReadU32BE(a, 0);
      assert ReadU32BE(b, 4) == ReadU32BE(a, 4);
      assert ReadU32BE(b, 10) == ReadU32BE(a, 10);
    }
    var total := HEADER_STRUCT_SIZE + h.dataLength;
    assert total <= |a|;
    SuffixOfAppend(a, more, HEADER_STRUCT_SIZE);
    AppDataIgnoresTail(h, a[HEADER_STRUCT_SIZE..], more);
    SuffixOfAppend(a, more, total);
  }

  lemma SuffixOfAppend(a: seq<byte>, more: seq<byte>, k: nat)
    requires k <= |a|
    ensures (a + more)[k..] == a[k..] + more
  {
  }

  /** `processData(a)` then `processData(more)`, as the state reached from `d`. */
  function Then(d: Drained, more: seq<byte>, cbs: Callbacks): Drained
  {
    After(d.events, Drain(d.rest + more, d.groups, cbs))
  }

  /** Splitting the input in two changes nothing: the same buffer, groups and callback calls
      result as from decoding it in one piece. */
  lemma {:induction false} DrainAppend(a: seq<byte>, more: seq<byte>, groups: Groups, cbs: Callbacks)
    ensures Drain(a + more, groups, cbs) == Then(Drain(a, groups, cbs), more, cbs)
    decreases |a|
  {
    match TryParse(a, groups, cbs)
    case None =>
      DrainStops(a, groups, cbs);
      assert [] + Drain(a + more, groups, cbs).events == Drain(a + more, groups, cbs).events;
    case Some(s) =>
      TryParseExtend(a, more, groups, cbs);
      DrainGoesOn(a, groups, cbs);
      DrainGoesOn(a + more, groups, cbs);
      DrainAppend(s.rest, more, s.groups, cbs);
      var x := Drain(s.rest, s.groups, cbs);
      AfterAfter(s.events, x.events, Drain(x.rest + more, x.groups, cbs));
  }

  /** Successive `processData` calls, one per chunk; an empty chunk is ignored. */
  function FeedAll(d: Drained, chunks: seq<seq<byte>>, cbs: Callbacks): Drained
    decreases |chunks|
  {
    if chunks == [] then d
    else if chunks[0] == [] then FeedAll(d, chunks[1..], cbs)
    else FeedAll(Then(d, chunks[0], cbs), chunks[1..], cbs)
  }

  /** Feeding a stream in chunks of any sizes is the same as feeding it at once. */
  lemma {:induction false} ChunkingIrrelevant(buf: seq<byte>, groups: Groups, chunks: seq<seq<byte>>, cbs: Callbacks)
    ensures FeedAll(Drain(buf, groups, cbs), chunks, cbs) == Drain(buf + Concat(chunks), groups, cbs)
    decreases |chunks|
  {
    if chunks == [] {
      assert buf + Concat(chunks) == buf;
    } else {
      var c, cs := chunks[0], chunks[1..];
      assert buf + c + Concat(cs) == buf + Concat(chunks) by {
        assert Concat(chunks) == c + Concat(cs);
      }
      if c == [] {
        assert buf + c == buf;
        ChunkingIrrelevant(buf, groups, cs, cbs);
      } else {
        assert Then(Drain(buf, groups, cbs), c, cbs) == Drain(buf + c, groups, cbs) by {
          DrainAppend(buf, c, groups, cbs);
        }
        ChunkingIrrelevant(buf + c, groups, cs, cbs);
      }
    }
  }

  /** Good packets delivered one after another. */
  function DeliverAll(groups: Groups, ps: seq<AppPacket>, cbs: Callbacks): Delivery
    decreases |ps|
  {
    if ps == [] then Delivery(groups, [])
    else
      var d := Deliver(groups, ps[0], cbs);
      var r := DeliverAll(d.groups, ps[1..], cbs);
      Delivery(r.groups, d.events + r.events)
  }

  /** The output of `encodePacketGroup` (or of repeated `encodePacket`) is decoded into
      exactly the encoded packets, delivered in order, with nothing left in the buffer. */
  predicate AllEncodable(ps: seq<AppPacket>)
  {
    forall i :: 0 <= i < |ps| ==> Encodable(ps[i])
  }

  lemma {:induction false} DecodeStream(ps: seq<AppPacket>, groups: Groups, cbs: Callbacks)
    requires AllEncodable(ps)
    ensures Drain(EncodeAll(ps), groups, cbs) ==
      Drained([], DeliverAll(groups, ps, cbs).groups, DeliverAll(groups, ps, cbs).events)
    decreases |ps|
  {
    if ps == [] {
      DrainStops([], groups, cbs);
    } else {
      var d := Deliver(groups, ps[0], cbs);
      var r := DeliverAll(d.groups, ps[1..], cbs);
      var rest := EncodeAll(ps[1..]);
      var b := PacketBytes(ps[0]) + rest;
      assert EncodeAll(ps) == b by {
        EncodeAllCons(ps);
      }
      assert TryParse(b, groups, cbs) == Some(Drained(rest, d.groups, d.events)) by {
        assert Encodable(ps[0]);
        FrameRoundTrip(ps[0], rest, groups, cbs);
      }
      DrainGoesOn(b, groups, cbs);
      assert Drain(rest, d.groups, cbs) == Drained([], r.groups, r.events) by {
        assert AllEncodable(ps[1..]) by {
          assert forall i :: 0 <= i < |ps[1..]| ==> ps[1..][i] == ps[i + 1];
        }
        DecodeStream(ps[1..], d.groups, cbs);
      }
    }
  }

  /** Both callbacks supplied, as in the test program. */
  const BOTH: Callbacks := Callbacks(true, true)

  /** The lone-"EG" test case: one `processData` call on a fresh decoder with a single
      encoded "EG" packet reports that packet once and hands over a group holding just it;
      nothing stays buffered and no group stays open. */
  lemma LoneEndGroupPacket(eg: AppPacket)
    requires Encodable(eg) && eg.tl == END_GROUP
    ensures Drain([] + PacketBytes(eg), map[], BOTH) ==
      Drained([], map[], [PacketDecoded(eg), GroupCompleted(eg.groupId, [eg])])
  {
    assert AllEncodable([eg]);
    DecodeStream([eg], map[], BOTH);
    assert EncodeAll([eg]) == [] + PacketBytes(eg) by {
      EncodeAllCons([eg]);
      assert [eg][1..] == [];
    }
    DeliverAllOne(map[], eg, BOTH);
    DeliverBoth(map[], eg);
    assert GroupOf(map[], eg.groupId) + [eg] == [eg];
    var none: Groups := map[];
    assert none - {eg.groupId} == none;
  }

  lemma DeliverAllOne(groups: Groups, p: AppPacket, cbs: Callbacks)
    ensures DeliverAll(groups, [p], cbs) == Deliver(groups, p, cbs)
  {
    assert [p][1..] == [];
    var d := Deliver(groups, p, cbs);
    assert d.events + [] == d.events;
  }

  lemma {:induction false} DeliverAllAppend(groups: Groups, ps: seq<AppPacket>, qs: seq<AppPacket>, cbs: Callbacks)
    ensures var a := DeliverAll(groups, ps, cbs);
      var b := DeliverAll(a.groups, qs, cbs);
      DeliverAll(groups, ps + qs, cbs) == Delivery(b.groups, a.events + b.events)
    decreases |ps|
  {
    if ps == [] {
      assert ps + qs == qs;
    } else {
      var d := Deliver(groups, ps[0], cbs);
      assert (ps + qs)[1..] == ps[1..] + qs;
      DeliverAllAppend(d.groups, ps[1..], qs, cbs);
      var a := DeliverAll(d.groups, ps[1..], cbs);
      var b := DeliverAll(a.groups, qs, cbs);
      assert d.events + (a.events + b.events) == (d.events + a.events) + b.events;
    }
  }

  /** A stream of encoded packets fed to a fresh decoder in chunks of any sizes delivers
      exactly those packets, in order, and leaves nothing buffered. */
  lemma FeedEncodedStream(ps: seq<AppPacket>, chunks: seq<seq<byte>>, cbs: Callbacks)
    requires AllEncodable(ps) && Concat(chunks) == EncodeAll(ps)
    ensures var r := DeliverAll(map[], ps, cbs);
      FeedAll(Drained([], map[], []), chunks, cbs) == Drained([], r.groups, r.events)
  {
    DrainStops([], map[], cbs);
    ChunkingIrrelevant([], map[], chunks, cbs);
    assert [] + Concat(chunks) == EncodeAll(ps);
    DecodeStream(ps, map[], cbs);
  }

  lemma DeliverBoth(groups: Groups, p: AppPacket)
    ensures var group := GroupOf(groups, p.groupId) + [p];
      Deliver(groups, p, BOTH) ==
        if p.tl == END_GROUP then Delivery(groups - {p.groupId}, [PacketDecoded(p), GroupCompleted(p.groupId, group)])
        else Delivery(groups[p.groupId := group], [PacketDecoded(p)])
  {
  }

  /** The first two packets of the interleaved test order, IM(101) and TX(102), open one
      group each. */
  lemma InterleavedFirstTwo(im: AppPacket, tx: AppPacket)
    requires im.groupId == 101 && tx.groupId == 102
    requires im.tl != END_GROUP && tx.tl != END_GROUP
    ensures DeliverAll(map[], [im, tx], BOTH) ==
      Delivery(map[101 := [im], 102 := [tx]], [PacketDecoded(im), PacketDecoded(tx)])
  {
    var d1 := Deliver(map[], im, BOTH);
    DeliverBoth(map[], im);
    assert GroupOf(map[], 101) + [im] == [im];
    DeliverBoth(d1.groups, tx);
    assert GroupOf(d1.groups, 102) + [tx] == [tx];
    DeliverAllOne(d1.groups, tx, BOTH);
    DeliverAllAppend(map[], [im], [tx], BOTH);
    DeliverAllOne(map[], im, BOTH);
    assert [im] + [tx] == [im, tx];
  }

  /** The first three packets of the interleaved test order, IM(101), TX(102), RP(101): each
      is reported and two groups are open. */
  lemma InterleavedOpening(im: AppPacket, tx: AppPacket, rp: AppPacket)
    requires im.groupId == 101 && rp.groupId == 101 && tx.groupId == 102
    requires im.tl == ['I' as int, 'M' as int] && rp.tl == ['R' as int, 'P' as int]
    requires tx.tl == ['T' as int, 'X' as int]
    ensures DeliverAll(map[], [im, tx, rp], BOTH) ==
      Delivery(map[101 := [im, rp], 102 := [tx]], [PacketDecoded(im), PacketDecoded(tx), PacketDecoded(rp)])
  {
    assert im.tl != END_GROUP && tx.tl != END_GROUP && rp.tl != END_GROUP by {
      assert im.tl[0] != END_GROUP[0] && tx.tl[0] != END_GROUP[0] && rp.tl[0] != END_GROUP[0];
    }
    InterleavedFirstTwo(im, tx);
    var g2: Groups := map[101 := [im], 102 := [tx]];
    DeliverBoth(g2, rp);
    assert GroupOf(g2, 101) + [rp] == [im, rp];
    assert g2[101 := [im, rp]] == map[101 := [im, rp], 102 := [tx]];
    DeliverAllOne(g2, rp, BOTH);
    DeliverAllAppend(map[], [im, tx], [rp], BOTH);
    assert [im, tx] + [rp] == [im, tx, rp];
  }

  /** The two "EG" packets of the interleaved test order close group 102 as TX, EG and then
      group 101 as IM, RP, EG. */
  lemma InterleavedClosing(im: AppPacket, tx: AppPacket, rp: AppPacket, eg102: AppPacket, eg101: AppPacket)
    requires eg101.groupId == 101 && eg102.groupId == 102
    requires eg101.tl == END_GROUP && eg102.tl == END_GROUP
    ensures DeliverAll(map[101 := [im, rp], 102 := [tx]], [eg102, eg101], BOTH) ==
      Delivery(map[], [PacketDecoded(eg102), GroupCompleted(102, [tx, eg102]),
                       PacketDecoded(eg101), GroupCompleted(101, [im, rp, eg101])])
  {
    var g3: Groups := map[101 := [im, rp], 102 := [tx]];
    var d4 := Deliver(g3, eg102, BOTH);
    DeliverBoth(g3, eg102);
    assert GroupOf(g3, 102) + [eg102] == [tx, eg102];
    assert d4.groups == map[101 := [im, rp]];
    var d5 := Deliver(d4.groups, eg101, BOTH);
    DeliverBoth(d4.groups, eg101);
    assert GroupOf(d4.groups, 101) + [eg101] == [im, rp, eg101];
    assert d5.groups == map[];
    DeliverAllOne(d4.groups, eg101, BOTH);
    DeliverAllAppend(g3, [eg102], [eg101], BOTH);
    DeliverAllOne(g3, eg102, BOTH);
    assert [eg102] + [eg101] == [eg102, eg101];
  }

  /** Group bookkeeping for the interleaved test order IM(101), TX(102), RP(101), EG(102),
      EG(101): each packet is reported as it arrives, group 102 completes as TX, EG and
      group 101 as IM, RP, EG, and no group stays open. */
  lemma InterleavedDelivery(im: AppPacket, tx: AppPacket, rp: AppPacket, eg102: AppPacket, eg101: AppPacket)
    requires im.groupId == 101 && rp.groupId == 101 && eg101.groupId == 101
    requires tx.groupId == 102 && eg102.groupId == 102
    requires im.tl == ['I' as int, 'M' as int] && rp.tl == ['R' as int, 'P' as int]
    requires tx.tl == ['T' as int, 'X' as int]
    requires eg101.tl == END_GROUP && eg102.tl == END_GROUP
    ensures DeliverAll(map[], [im, tx, rp, eg102, eg101], BOTH) ==
      Delivery(map[], [
        PacketDecoded(im), PacketDecoded(tx), PacketDecoded(rp),
        PacketDecoded(eg102), GroupCompleted(102, [tx, eg102]),
        PacketDecoded(eg101), GroupCompleted(101, [im, rp, eg101])])
  {
    InterleavedOpening(im, tx, rp);
    InterleavedClosing(im, tx, rp, eg102, eg101);
    DeliverAllAppend(map[], [im, tx, rp], [eg102, eg101], BOTH);
    assert [im, tx, rp] + [eg102, eg101] == [im, tx, rp, eg102, eg101];
  }

  /** The interleaved test case: those five packets, encoded in that order and fed to a fresh
      decoder in chunks of any sizes (the test uses 50 bytes), are each reported once in stream
      order; group 102 is handed over as TX, EG and group 101 as IM, RP, EG, each packet equal
      to the one encoded; nothing stays buffered and no group stays open. */
  lemma InterleavedGroups(im: AppPacket, tx: AppPacket, rp: AppPacket, eg102: AppPacket, eg101: AppPacket,
                          chunks: seq<seq<byte>>)
    requires im.groupId == 101 && rp.groupId == 101 && eg101.groupId == 101
    requires tx.groupId == 102 && eg102.groupId == 102
    requires im.tl == ['I' as int, 'M' as int] && rp.tl == ['R' as int, 'P' as int]
    requires tx.tl == ['T' as int, 'X' as int]
    requires eg101.tl == END_GROUP && eg102.tl == END_GROUP
    requires Encodable(im) && Encodable(tx) && Encodable(rp) && Encodable(eg102) && Encodable(eg101)
    requires Concat(chunks) == EncodeAll([im, tx, rp, eg102, eg101])
    ensures FeedAll(Drained([], map[], []), chunks, BOTH) ==
      Drained([], map[], [
        PacketDecoded(im), PacketDecoded(tx), PacketDecoded(rp),
        PacketDecoded(eg102), GroupCompleted(102, [tx, eg102]),
        PacketDecoded(eg101), GroupCompleted(101, [im, rp, eg101])])
  {
    var ps := [im, tx, rp, eg102, eg101];
    assert AllEncodable(ps);
    FeedEncodedStream(ps, chunks, BOTH);
    InterleavedDelivery(im, tx, rp, eg102, eg101);
  }
}
