/** The BPG binary packet framing protocol as the renderer implements it
    (src/lib/BPG_Protocol.ts): a 14-byte header `group_id | target_id | tl | data_length`
    followed by the hybrid payload `metadata length | metadata | binary`, every integer
    a big-endian uint32. The encoder turns one packet into bytes; the streaming decoder
    buffers arbitrary chunks, cuts complete packets off the front, collects them per
    group and hands a group over when its "EG" packet arrives. */
module BpgTs {
  import opened Bytes

  const HEADER_SIZE: nat := 14
  const JSON_LENGTH_SIZE: nat := 4

  /** Packet content; the metadata string is kept as the UTF-8 bytes it travels as. */
  datatype HybridData = HybridData(metadata: seq<byte>, binary: seq<byte>)

  /** A UTF-16 code unit: a JavaScript string is a sequence of these, and `length` and
      `charCodeAt` count and read them. */
  type CodeUnit = x: int | 0 <= x < 0x1_0000

  datatype AppPacket = AppPacket(groupId: u32, targetId: u32, tl: seq<CodeUnit>, content: HybridData)

  datatype EncodeResult = Encoded(bytes: seq<byte>) | BadPacketType(tl: seq<CodeUnit>)

  /** The type letters "EG" that close a group. */
  const END_GROUP: seq<CodeUnit> := ['E' as int, 'G' as int]

  /** The packet closes its group: its type letters are "EG". */
  predicate EndsGroup(p: AppPacket)
  {
    p.tl == END_GROUP
  }

  // ---------------------------------------------------------------- encoder

  /** The payload after the header: the metadata length, the metadata, the binary. */
  function PayloadBytes(data: HybridData): seq<byte>
  {
    U32BE(Trunc32(|data.metadata|)) + data.metadata + data.binary
  }

  /** `calculateHybridDataSize`: the number of payload bytes after the header. */
  function CalculateHybridDataSize(data: HybridData): (r: nat)
    ensures r == |PayloadBytes(data)|
  {
    JSON_LENGTH_SIZE + |data.metadata| + |data.binary|
  }

  /** The byte `setUint8` stores for a `tl` code unit: its low eight bits. */
  function CharByte(c: CodeUnit): byte
  {
    Low8(c)
  }

  /** The wire image of a packet whose `tl` has two code units: the header, whose
      `data_length` field holds the payload size, then the payload. */
  function PacketBytes(p: AppPacket): seq<byte>
    requires |p.tl| == 2
  {
    U32BE(p.groupId) + U32BE(p.targetId) + [CharByte(p.tl[0]), CharByte(p.tl[1])]
      + U32BE(Trunc32(CalculateHybridDataSize(p.content))) + PayloadBytes(p.content)
  }

  /** A packet the wire format can carry unchanged: two `tl` code units below 256
      and a payload whose size fits the 32-bit `data_length` field. */
  predicate Encodable(p: AppPacket)
  {
    |p.tl| == 2 && p.tl[0] < 0x100 && p.tl[1] < 0x100
    && CalculateHybridDataSize(p.content) < U32_LIMIT
  }

  /** `dataView.setUint32(offset, x, false)`. */
  method SetUint32(buffer: array<byte>, offset: nat, x: u32)
    requires offset + 4 <= buffer.Length
    modifies buffer
    ensures buffer[..] == Overwrite(old(buffer[..]), offset, U32BE(x))
  {
    var b := U32BE(x);
    buffer[offset], buffer[offset + 1], buffer[offset + 2], buffer[offset + 3] := b[0], b[1], b[2], b[3];
  }

  /** `packetBytes.set(bytes, offset)`. */
  method SetBytes(buffer: array<byte>, offset: nat, bytes: seq<byte>)
    requires offset + |bytes| <= buffer.Length
    modifies buffer
    ensures buffer[..] == Overwrite(old(buffer[..]), offset, bytes)
  {
    for i := 0 to |bytes|
      invariant forall k :: 0 <= k < buffer.Length ==>
        buffer[k] == if offset <= k < offset + i then bytes[k - offset] else old(buffer[k])
    {
      buffer[offset + i] := bytes[i];
    }
  }

  /** `encodePacket`: allocates a zeroed buffer of header plus payload size and fills it field by
      field with a running offset; throws when `tl` is not exactly two UTF-16 code units long. */
  method EncodePacket(packet: AppPacket) returns (r: EncodeResult)
    ensures r.BadPacketType? <==> |packet.tl| != 2
    ensures r.Encoded? ==> r.bytes == PacketBytes(packet)
  {
    var dataSize := CalculateHybridDataSize(packet.content);
    var totalSize := HEADER_SIZE + dataSize;
    var buffer := new byte[totalSize](_ => 0);
    var offset := 0;

    SetUint32(buffer, offset, packet.groupId);
    offset := offset + 4;
    SetUint32(buffer, offset, packet.targetId);
    offset := offset + 4;
    assert buffer[..offset] == U32BE(packet.groupId) + U32BE(packet.targetId);

    if |packet.tl| != 2 {
      return BadPacketType(packet.tl);
    }
    ghost var head := buffer[..offset];
    buffer[offset] := CharByte(packet.tl[0]);
    offset := offset + 1;
    buffer[offset] := CharByte(packet.tl[1]);
    offset := offset + 1;
    assert buffer[..offset] == head + [CharByte(packet.tl[0]), CharByte(packet.tl[1])];

    head := buffer[..offset];
    SetUint32(buffer, offset, Trunc32(dataSize));
    offset := offset + 4;
    assert buffer[..offset] == head + U32BE(Trunc32(dataSize));

    ghost var header := buffer[..offset];
    var strBytes := packet.content.metadata;
    var strLength := |strBytes|;
    SetUint32(buffer, offset, Trunc32(strLength));
    offset := offset + 4;
    ghost var withLength := buffer[..offset];
    assert withLength == header + U32BE(Trunc32(strLength));

    if strLength > 0 {
      SetBytes(buffer, offset, strBytes);
      offset := offset + strLength;
    }
    ghost var withMetadata := buffer[..offset];
    assert withMetadata == withLength + strBytes;

    var binary := packet.content.binary;
    if |binary| > 0 {
      SetBytes(buffer, offset, binary);
      offset := offset + |binary|;
    }
    assert buffer[..offset] == withMetadata + binary;
    AppendThree(header, U32BE(Trunc32(strLength)), strBytes, binary);
    // offset == totalSize here, so the offset-mismatch warning never fires
    assert offset == totalSize;
    assert buffer[..] == buffer[..offset];
    r := Encoded(buffer[..]);
  }

  lemma AppendThree(h: seq<byte>, a: seq<byte>, b: seq<byte>, c: seq<byte>)
    ensures h + a + b + c == h + (a + b + c)
  {
  }

  /** Field by field, the encoding holds what the decoder reads back: group, target, the two
      `tl` codes, `data_length` (the byte count after the header), the metadata length, the
      metadata bytes and then the binary bytes, `14 + 4 + |metadata| + |binary|` bytes in all. */
  lemma PacketLayout(p: AppPacket)
    requires |p.tl| == 2
    ensures var b := PacketBytes(p);
      && |b| == HEADER_SIZE + JSON_LENGTH_SIZE + |p.content.metadata| + |p.content.binary|
      && ReadU32BE(b, 0) == p.groupId
      && ReadU32BE(b, 4) == p.targetId
      && b[8] == CharByte(p.tl[0]) && b[9] == CharByte(p.tl[1])
      && ReadU32BE(b, 10) == Trunc32(|b| - HEADER_SIZE)
      && ReadU32BE(b, 14) == Trunc32(|p.content.metadata|)
      && b[18..18 + |p.content.metadata|] == p.content.metadata
      && b[18 + |p.content.metadata|..] == p.content.binary
  {
    var b := PacketBytes(p);
    var m := p.content.metadata;
    assert b[0..4] == U32BE(p.groupId);
    assert b[4..8] == U32BE(p.targetId);
    ReadU32BEAt(b, 0, p.groupId);
    ReadU32BEAt(b, 4, p.targetId);
    assert b[10..14] == U32BE(Trunc32(CalculateHybridDataSize(p.content)));
    ReadU32BEAt(b, 10, Trunc32(CalculateHybridDataSize(p.content)));
    assert b[14..18] == U32BE(Trunc32(|m|));
    ReadU32BEAt(b, 14, Trunc32(|m|));
    assert b[18..] == m + p.content.binary;
    assert b[18..18 + |m|] == m;
  }

  // ---------------------------------------------------------------- decoder

  /** What the callbacks observe: `packetCallback(packet)` and `groupCallback(groupId, group)`,
      in the order they are called. */
  datatype Event = PacketDecoded(packet: AppPacket) | GroupCompleted(groupId: u32, group: seq<AppPacket>)

  type Groups = map<u32, seq<AppPacket>>

  /** The front of the buffer: not yet a whole packet, a whole packet that is dropped, or a
      whole packet decoded; `size` is the number of bytes the packet occupies. */
  datatype Frame = Incomplete | Malformed(size: nat) | Decoded(packet: AppPacket, size: nat)

  /** How the decoder's loop body reads the front of `buf`. */
  function ParseFrame(buf: seq<byte>): (f: Frame)
    ensures f.Incomplete? <==> |buf| < HEADER_SIZE || |buf| < HEADER_SIZE + ReadU32BE(buf, 10)
    ensures !f.Incomplete? ==> f.size == HEADER_SIZE + ReadU32BE(buf, 10) <= |buf|
    ensures f.Malformed? <==> (!f.Incomplete? &&
      (ReadU32BE(buf, 10) < JSON_LENGTH_SIZE || JSON_LENGTH_SIZE + ReadU32BE(buf, 14) > ReadU32BE(buf, 10)))
    ensures f.Decoded? ==> Encodable(f.packet) && PacketBytes(f.packet) == buf[..f.size]
  {
    if |buf| < HEADER_SIZE then Incomplete
    else
      var dataLength := ReadU32BE(buf, 10);
      var total := HEADER_SIZE + dataLength;
      if |buf| < total then Incomplete
      else if dataLength < JSON_LENGTH_SIZE then Malformed(total)
      else
        var strLength := ReadU32BE(buf, 14);
        if dataLength - JSON_LENGTH_SIZE - strLength < 0 then Malformed(total)
        else
          var metadata := buf[HEADER_SIZE + 4..HEADER_SIZE + 4 + strLength];
          var binary := buf[HEADER_SIZE + 4 + strLength..total];
          var tl := [buf[8] as int, buf[9] as int];
          FrontReencodes(buf);
          Decoded(AppPacket(ReadU32BE(buf, 0), ReadU32BE(buf, 4), tl, HybridData(metadata, binary)), total)
  }

  /** A whole, well-formed packet at the front of `buf` is exactly the encoding of the packet
      the decoder builds from it. */
  lemma FrontReencodes(buf: seq<byte>)
    requires |buf| >= HEADER_SIZE && |buf| >= HEADER_SIZE + ReadU32BE(buf, 10)
    requires ReadU32BE(buf, 10) >= JSON_LENGTH_SIZE
    requires JSON_LENGTH_SIZE + ReadU32BE(buf, 14) <= ReadU32BE(buf, 10)
    ensures var total := HEADER_SIZE + ReadU32BE(buf, 10);
      var strLength := ReadU32BE(buf, 14);
      var p := AppPacket(ReadU32BE(buf, 0), ReadU32BE(buf, 4), [buf[8] as int, buf[9] as int],
        HybridData(buf[18..18 + strLength], buf[18 + strLength..total]));
      Encodable(p) && PacketBytes(p) == buf[..total]
  {
    var total: nat := HEADER_SIZE + ReadU32BE(buf, 10);
    var strLength: nat := ReadU32BE(buf, 14);
    var p := AppPacket(ReadU32BE(buf, 0), ReadU32BE(buf, 4), [buf[8] as int, buf[9] as int],
      HybridData(buf[18..18 + strLength], buf[18 + strLength..total]));
    assert Trunc32(CalculateHybridDataSize(p.content)) == ReadU32BE(buf, 10);
    assert Trunc32(|p.content.metadata|) == strLength;
    assert [CharByte(p.tl[0]), CharByte(p.tl[1])] == buf[8..10];
    WriteAfterRead(buf, 0);
    WriteAfterRead(buf, 4);
    WriteAfterRead(buf, 10);
    WriteAfterRead(buf, 14);
    PacketBytesFrom(p, buf[0..4], buf[4..8], buf[8..10], buf[10..14], buf[14..18]);
    AppendSlices(buf, 0, 4, 8);
    AppendSlices(buf, 0, 8, 10);
    AppendSlices(buf, 0, 10, 14);
    AppendSlices(buf, 0, 14, 18);
    AppendSlices(buf, 0, 18, 18 + strLength);
    AppendSlices(buf, 0, 18 + strLength, total);
  }

  /** `PacketBytes` with each header field replaced by bytes known to encode it. */
  lemma PacketBytesFrom(p: AppPacket, g: seq<byte>, t: seq<byte>, tl: seq<byte>, len: seq<byte>, sl: seq<byte>)
    requires |p.tl| == 2
    requires U32BE(p.groupId) == g && U32BE(p.targetId) == t && [CharByte(p.tl[0]), CharByte(p.tl[1])] == tl
    requires U32BE(Trunc32(CalculateHybridDataSize(p.content))) == len
    requires U32BE(Trunc32(|p.content.metadata|)) == sl
    ensures PacketBytes(p) == g + t + tl + len + sl + p.content.metadata + p.content.binary
  {
  }

  /** Adjacent slices join into one. */
  lemma AppendSlices(s: seq<byte>, i: nat, j: nat, k: nat)
    requires i <= j <= k <= |s|
    ensures s[i..j] + s[j..k] == s[i..k]
  {
  }

  /** The packets collected so far for `groupId` (none when it is not in the map). */
  function GroupOf(groups: Groups, groupId: u32): seq<AppPacket>
  {
    if groupId in groups then groups[groupId] else []
  }

  datatype Delivery = Delivery(groups: Groups, events: seq<Event>)

  /** A decoded packet joins its group and is reported; an "EG" packet then hands the whole
      group over and removes it from the map. */
  function Deliver(groups: Groups, p: AppPacket): Delivery
  {
    var group := GroupOf(groups, p.groupId) + [p];
    if EndsGroup(p) then
      Delivery(groups - {p.groupId}, [PacketDecoded(p), GroupCompleted(p.groupId, group)])
    else
      Delivery(groups[p.groupId := group], [PacketDecoded(p)])
  }

  /** The decoder state after a run of the loop, and what the callbacks saw. */
  datatype Drained = Drained(rest: seq<byte>, groups: Groups, events: seq<Event>)

  /** The `while (true)` loop of `processData` as a function: consume packets from the front
      until the front is incomplete. */
  function Drain(buf: seq<byte>, groups: Groups): Drained
    decreases |buf|
  {
    match ParseFrame(buf)
    case Incomplete => Drained(buf, groups, [])
    case Malformed(n) => Drain(buf[n..], groups)
    case Decoded(p, n) =>
      var d := Deliver(groups, p);
      var r := Drain(buf[n..], d.groups);
      Drained(r.rest, r.groups, d.events + r.events)
  }

  /** An incomplete front stops the loop with nothing consumed and nothing reported. */
  lemma DrainStops(buf: seq<byte>, groups: Groups)
    requires ParseFrame(buf).Incomplete?
    ensures Drain(buf, groups) == Drained(buf, groups, [])
  {
  }

  /** A malformed packet is dropped: the loop goes on after it with the groups unchanged. */
  lemma DrainSkips(buf: seq<byte>, groups: Groups, n: nat)
    requires ParseFrame(buf) == Malformed(n)
    ensures Drain(buf, groups) == Drain(buf[n..], groups)
  {
  }

  /** A decoded packet is delivered and the loop goes on after it. */
  lemma DrainDelivers(buf: seq<byte>, groups: Groups, p: AppPacket, n: nat)
    requires ParseFrame(buf) == Decoded(p, n)
    ensures var d := Deliver(groups, p);
      var r := Drain(buf[n..], d.groups);
      Drain(buf, groups) == Drained(r.rest, r.groups, d.events + r.events)
  {
  }

  class BpgDecoder {
    var internalBuffer: seq<byte>
    var activeGroups: Groups

    constructor ()
      ensures internalBuffer == [] && activeGroups == map[]
    {
      internalBuffer := [];
      activeGroups := map[];
    }

    /** `reset`: forget buffered bytes and unfinished groups. */
    method Reset()
      modifies this
      ensures internalBuffer == [] && activeGroups == map[]
    {
      internalBuffer := [];
      activeGroups := map[];
    }

    /** The "store and trigger callbacks" part of the loop body: append the packet to its
        group, report it, and on "EG" hand the group over and remove it. */
    method StoreAndNotify(appPacket: AppPacket) returns (fired: seq<Event>)
      modifies this`activeGroups
      ensures Delivery(activeGroups, fired) == Deliver(old(activeGroups), appPacket)
    {
      var groupId := appPacket.groupId;
      if groupId !in activeGroups {
        activeGroups := activeGroups[groupId := []];
      }
      activeGroups := activeGroups[groupId := activeGroups[groupId] + [appPacket]];
      fired := [PacketDecoded(appPacket)];
      if EndsGroup(appPacket) {
        var completedGroup := activeGroups[groupId];
        activeGroups := activeGroups - {groupId};
        fired := fired + [GroupCompleted(groupId, completedGroup)];
      }
    }

    /** One pass of the `processData` loop body: stop at an incomplete front, drop a malformed
        packet, or deliver a decoded one, in each case moving along the same `Drain` run. */
    method DecodeFront() returns (done: bool, fired: seq<Event>)
      modifies this`internalBuffer, this`activeGroups
      ensures var d := Drain(old(internalBuffer), old(activeGroups));
        if done then
          internalBuffer == old(internalBuffer) && activeGroups == old(activeGroups) && fired == [] && d.events == []
          && d.rest == internalBuffer && d.groups == activeGroups
        else
          && |internalBuffer| < |old(internalBuffer)|
          && Drain(internalBuffer, activeGroups).rest == d.rest
          && Drain(internalBuffer, activeGroups).groups == d.groups
          && fired + Drain(internalBuffer, activeGroups).events == d.events
    {
      var frame := ParseFront(internalBuffer);
      if frame.Incomplete? {
        DrainStops(internalBuffer, activeGroups);
        return true, [];
      }
      if frame.Malformed? {
        DrainSkips(internalBuffer, activeGroups, frame.size);
        internalBuffer := internalBuffer[frame.size..];
        return false, [];
      }
      DrainDelivers(internalBuffer, activeGroups, frame.packet, frame.size);
      fired := StoreAndNotify(frame.packet);
      internalBuffer := internalBuffer[frame.size..];
      done := false;
    }

    /** `processData`: append the chunk, then decode and deliver packets from the front of the
        buffer for as long as a whole one is there. The callbacks' calls are returned. */
    method ProcessData(data: seq<byte>) returns (events: seq<Event>)
      modifies this
      ensures Drained(internalBuffer, activeGroups, events) == Drain(old(internalBuffer) + data, old(activeGroups))
    {
      internalBuffer := internalBuffer + data;
      events := [];
      ghost var target := Drain(internalBuffer, activeGroups);
      while true
        invariant Drain(internalBuffer, activeGroups).rest == target.rest
        invariant Drain(internalBuffer, activeGroups).groups == target.groups
        invariant events + Drain(internalBuffer, activeGroups).events == target.events
        decreases |internalBuffer|
      {
        var done, fired := DecodeFront();
        if done {
          break;
        }
        events := events + fired;
      }
    }
  }

  /** The parsing half of the `processData` loop body: read the header, wait for the whole
      packet, skip a packet whose lengths do not fit, and otherwise slice out the metadata
      and binary parts. */
  method ParseFront(internalBuffer: seq<byte>) returns (frame: Frame)
    ensures frame == ParseFrame(internalBuffer)
  {
    if |internalBuffer| < HEADER_SIZE {
      return Incomplete;
    }
    var groupId := ReadU32BE(internalBuffer, 0);
    var targetId := ReadU32BE(internalBuffer, 4);
    var tl := [internalBuffer[8] as int, internalBuffer[9] as int];
    var dataLength := ReadU32BE(internalBuffer, 10);
    var totalPacketSize := HEADER_SIZE + dataLength;
    if |internalBuffer| < totalPacketSize {
      return Incomplete;
    }
    if dataLength < JSON_LENGTH_SIZE {
      return Malformed(totalPacketSize);
    }
    var dataOffset := HEADER_SIZE;
    var strLength := ReadU32BE(internalBuffer, dataOffset);
    dataOffset := dataOffset + 4;
    var binaryBytesLength := dataLength - JSON_LENGTH_SIZE - strLength;
    if binaryBytesLength < 0 {
      return Malformed(totalPacketSize);
    }
    var metadata: seq<byte> := [];
    if strLength > 0 {
      metadata := internalBuffer[dataOffset..dataOffset + strLength];
      dataOffset := dataOffset + strLength;
    }
    var binary: seq<byte> := [];
    if binaryBytesLength > 0 {
      binary := internalBuffer[dataOffset..dataOffset + binaryBytesLength];
      dataOffset := dataOffset + binaryBytesLength;
    }
    frame := Decoded(AppPacket(groupId, targetId, tl, HybridData(metadata, binary)), totalPacketSize);
  }

  // ---------------------------------------------------------------- properties

  /** Bytes after a packet that is already whole do not change how it is read. */
  lemma ParseFrameExtend(a: seq<byte>, more: seq<byte>)
    requires !ParseFrame(a).Incomplete?
    ensures ParseFrame(a + more) == ParseFrame(a)
  {
    var b := a + more;
    assert b[..|a|] == a;
    assert ReadU32BE(b, 10) == ReadU32BE(a, 10);
    var total := HEADER_SIZE + ReadU32BE(a, 10);
    if ReadU32BE(a, 10) >= JSON_LENGTH_SIZE {
      assert ReadU32BE(b, 14) == ReadU32BE(a, 14);
      assert ReadU32BE(b, 0) == ReadU32BE(a, 0);
      assert ReadU32BE(b, 4) == ReadU32BE(a, 4);
      assert b[8] == a[8] && b[9] == a[9];
      var m := ReadU32BE(a, 14);
      if JSON_LENGTH_SIZE + m <= ReadU32BE(a, 10) {
        assert b[18..18 + m] == a[18..18 + m];
        assert b[18 + m..total] == a[18 + m..total];
      }
    }
  }

  /** A packet read from the front of the buffer is exactly the packet that was encoded,
      whatever follows it. */
  lemma FrameRoundTrip(p: AppPacket, more: seq<byte>)
    requires Encodable(p)
    ensures ParseFrame(PacketBytes(p) + more) == Decoded(p, |PacketBytes(p)|)
  {
    var b := PacketBytes(p);
    PacketLayout(p);
    var m := p.content.metadata;
    assert CharByte(p.tl[0]) as int == p.tl[0];
    assert CharByte(p.tl[1]) as int == p.tl[1];
    assert [b[8] as int, b[9] as int] == p.tl;
    assert b[18..18 + |m|] == m;
    assert b[18 + |m|..|b|] == p.content.binary;
    assert ParseFrame(b) == Decoded(p, |b|);
    ParseFrameExtend(b, more);
  }

  /** `processData(encodePacket(p))` on a freshly reset decoder reports exactly `p` once,
      consumes every byte, and for an "EG" packet hands over the one-packet group. */
  lemma DecodeEncodedPacket(p: AppPacket)
    requires Encodable(p)
    ensures Drain(PacketBytes(p), map[]) ==
      if EndsGroup(p) then Drained([], map[], [PacketDecoded(p), GroupCompleted(p.groupId, [p])])
      else Drained([], map[p.groupId := [p]], [PacketDecoded(p)])
  {
    FrameRoundTrip(p, []);
    assert PacketBytes(p) + [] == PacketBytes(p);
    var b := PacketBytes(p);
    DrainDelivers(b, map[], p, |b|);
    assert b[|b|..] == [];
    var d := Deliver(map[], p);
    DrainStops([], d.groups);
    assert GroupOf(map[], p.groupId) + [p] == [p];
    assert d.events + [] == d.events;
    if EndsGroup(p) {
      assert d.groups == map[];
    }
  }

  /** What `processData` leaves in the buffer is a suffix of what it had, and never holds a
      whole packet. */
  lemma DrainLeavesIncomplete(buf: seq<byte>, groups: Groups)
    ensures var d := Drain(buf, groups);
      && |d.rest| <= |buf| && d.rest == buf[|buf| - |d.rest|..]
      && (|d.rest| < HEADER_SIZE || |d.rest| < HEADER_SIZE + ReadU32BE(d.rest, 10))
  {
    DrainRestIncomplete(buf, groups);
    var r := Drain(buf, groups).rest;
    assert ParseFrame(r).Incomplete?;
  }

  /** The buffer `Drain` leaves is a suffix of its input that holds no whole packet. */
  ghost predicate LeftIncomplete(buf: seq<byte>, rest: seq<byte>)
  {
    |rest| <= |buf| && rest == buf[|buf| - |rest|..] && ParseFrame(rest).Incomplete?
  }

  lemma {:induction false} DrainRestIncomplete(buf: seq<byte>, groups: Groups)
    ensures LeftIncomplete(buf, Drain(buf, groups).rest)
    decreases |buf|
  {
    match ParseFrame(buf)
    case Incomplete =>
      DrainStops(buf, groups);
    case Malformed(n) =>
      DrainRestIncomplete(buf[n..], groups);
      DrainSkips(buf, groups, n);
      LeftIncompleteAfter(buf, n, Drain(buf[n..], groups).rest);
    case Decoded(p, n) =>
      var d := Deliver(groups, p);
      DrainRestIncomplete(buf[n..], d.groups);
      DrainDelivers(buf, groups, p, n);
      LeftIncompleteAfter(buf, n, Drain(buf[n..], d.groups).rest);
  }

  lemma LeftIncompleteAfter(buf: seq<byte>, n: nat, rest: seq<byte>)
    requires n <= |buf| && LeftIncomplete(buf[n..], rest)
    ensures LeftIncomplete(buf, rest)
  {
    SuffixOfSuffix(buf, n, rest);
  }

  /** A suffix of a suffix of `buf` is a suffix of `buf`. */
  lemma SuffixOfSuffix(buf: seq<byte>, n: nat, r: seq<byte>)
    requires n <= |buf| && |r| <= |buf| - n && r == buf[n..][|buf| - n - |r|..]
    ensures r == buf[|buf| - |r|..]
  {
  }

  /** One `processData` call followed by another chunk: the state `processData(more)` leaves
      after the decoder reached `d`. */
  function Then(d: Drained, more: seq<byte>): Drained
  {
    var e := Drain(d.rest + more, d.groups);
    Drained(e.rest, e.groups, d.events + e.events)
  }

  /** Splitting the input into two chunks changes nothing: decoding `a` and then `more` gives
      the same buffer, groups and callbacks as decoding `a + more` at once. */
  lemma {:induction false} DrainAppend(a: seq<byte>, more: seq<byte>, groups: Groups)
    ensures Drain(a + more, groups) == Then(Drain(a, groups), more)
    decreases |a|
  {
    match ParseFrame(a)
    case Incomplete =>
      assert Drain(a, groups) == Drained(a, groups, []);
      assert [] + Drain(a + more, groups).events == Drain(a + more, groups).events;
    case Malformed(n) =>
      ParseFrameExtend(a, more);
      assert (a + more)[n..] == a[n..] + more;
      DrainSkips(a + more, groups, n);
      DrainAppend(a[n..], more, groups);
    case Decoded(p, n) =>
      ParseFrameExtend(a, more);
      assert (a + more)[n..] == a[n..] + more;
      var d := Deliver(groups, p);
      DrainDelivers(a + more, groups, p, n);
      DrainAppend(a[n..], more, d.groups);
      var x := Drain(a[n..], d.groups);
      var e := Drain(x.rest + more, x.groups);
      assert d.events + (x.events + e.events) == (d.events + x.events) + e.events;
  }

  /** Successive `processData` calls, one per chunk, starting from state `d`. */
  function FeedAll(d: Drained, chunks: seq<seq<byte>>): Drained
    decreases |chunks|
  {
    if chunks == [] then d else FeedAll(Then(d, chunks[0]), chunks[1..])
  }

  /** Feeding a stream in chunks of any sizes is the same as feeding it in one piece. */
  lemma {:induction false} ChunkingIrrelevant(buf: seq<byte>, groups: Groups, chunks: seq<seq<byte>>)
    ensures FeedAll(Drain(buf, groups), chunks) == Drain(buf + Concat(chunks), groups)
    decreases |chunks|
  {
    if chunks != [] {
      var c, cs := chunks[0], chunks[1..];
      assert buf + c + Concat(cs) == buf + Concat(chunks) by {
        assert Concat(chunks) == c + Concat(cs);
      }
      assert Then(Drain(buf, groups), c) == Drain(buf + c, groups) by {
        DrainAppend(buf, c, groups);
      }
      ChunkingIrrelevant(buf + c, groups, cs);
    } else {
      assert buf + Concat(chunks) == buf;
    }
  }

  /** Packets delivered one after another. */
  function DeliverAll(groups: Groups, ps: seq<AppPacket>): Delivery
    decreases |ps|
  {
    if ps == [] then Delivery(groups, [])
    else
      var d := Deliver(groups, ps[0]);
      var r := DeliverAll(d.groups, ps[1..]);
      Delivery(r.groups, d.events + r.events)
  }

  predicate AllEncodable(ps: seq<AppPacket>)
  {
    forall i :: 0 <= i < |ps| ==> Encodable(ps[i])
  }

  /** The encodings of `ps`, back to back. */
  function EncodeStream(ps: seq<AppPacket>): seq<byte>
    requires AllEncodable(ps)
  {
    if ps == [] then [] else PacketBytes(ps[0]) + EncodeStream(ps[1..])
  }

  /** A stream of encoded packets is decoded into exactly those packets, delivered in stream
      order, with nothing left over. */
  lemma {:induction false} DecodeStream(ps: seq<AppPacket>, groups: Groups)
    requires AllEncodable(ps)
    ensures Drain(EncodeStream(ps), groups) ==
      Drained([], DeliverAll(groups, ps).groups, DeliverAll(groups, ps).events)
    decreases |ps|
  {
    if ps == [] {
      DrainStops([], groups);
    } else {
      var rest := EncodeStream(ps[1..]);
      FrameRoundTrip(ps[0], rest);
      var n := |PacketBytes(ps[0])|;
      assert (PacketBytes(ps[0]) + rest)[n..] == rest;
      DrainDelivers(PacketBytes(ps[0]) + rest, groups, ps[0], n);
      DecodeStream(ps[1..], Deliver(groups, ps[0]).groups);
    }
  }

  /** The packets the packet callback received, in order. */
  function Reported(events: seq<Event>): seq<AppPacket>
  {
    if events == [] then []
    else (if events[0].PacketDecoded? then [events[0].packet] else []) + Reported(events[1..])
  }

  lemma {:induction false} ReportedAppend(a: seq<Event>, b: seq<Event>)
    ensures Reported(a + b) == Reported(a) + Reported(b)
    decreases |a|
  {
    if a == [] {
      assert a + b == b;
    } else {
      assert (a + b)[0] == a[0];
      assert (a + b)[1..] == a[1..] + b;
      ReportedAppend(a[1..], b);
    }
  }

  /** The packet callback fires once per delivered packet, in stream order. */
  lemma {:induction false} EachPacketReportedOnce(groups: Groups, ps: seq<AppPacket>)
    ensures Reported(DeliverAll(groups, ps).events) == ps
    decreases |ps|
  {
    if ps != [] {
      var d := Deliver(groups, ps[0]);
      EachPacketReportedOnce(d.groups, ps[1..]);
      ReportedAppend(d.events, DeliverAll(d.groups, ps[1..]).events);
      assert Reported(d.events) == [ps[0]];
    }
  }

  /** The packets of `ps` that belong to group `k`, in order. */
  function InGroup(ps: seq<AppPacket>, k: u32): seq<AppPacket>
  {
    if ps == [] then [] else (if ps[0].groupId == k then [ps[0]] else []) + InGroup(ps[1..], k)
  }

  /** No packet of `ps` ends group `k`. */
  predicate NoEndOf(ps: seq<AppPacket>, k: u32)
  {
    forall i :: 0 <= i < |ps| ==> !(ps[i].groupId == k && EndsGroup(ps[i]))
  }

  predicate NoGroupEventFor(events: seq<Event>, k: u32)
  {
    forall i :: 0 <= i < |events| ==> !(events[i].GroupCompleted? && events[i].groupId == k)
  }

  /** Until its "EG" packet arrives, a group collects its packets in arrival order, whatever
      other groups' packets are interleaved, and its group callback does not fire. */
  lemma {:induction false} GroupCollects(groups: Groups, ps: seq<AppPacket>, k: u32)
    requires NoEndOf(ps, k)
    ensures GroupOf(DeliverAll(groups, ps).groups, k) == GroupOf(groups, k) + InGroup(ps, k)
    ensures NoGroupEventFor(DeliverAll(groups, ps).events, k)
    decreases |ps|
  {
    if ps != [] {
      var d := Deliver(groups, ps[0]);
      assert NoEndOf(ps[1..], k) by {
        forall i | 0 <= i < |ps[1..]| ensures !(ps[1..][i].groupId == k && EndsGroup(ps[1..][i])) {
          assert ps[1..][i] == ps[i + 1];
        }
      }
      GroupCollects(d.groups, ps[1..], k);
      assert !(ps[0].groupId == k && EndsGroup(ps[0]));
      assert GroupOf(d.groups, k) == GroupOf(groups, k) + InGroup([ps[0]], k) by {
        assert InGroup([ps[0]], k) == if ps[0].groupId == k then [ps[0]] else [];
      }
      assert InGroup(ps, k) == InGroup([ps[0]], k) + InGroup(ps[1..], k);
    }
  }

  lemma {:induction false} DeliverAllAppend(groups: Groups, ps: seq<AppPacket>, qs: seq<AppPacket>)
    ensures var a := DeliverAll(groups, ps);
      var b := DeliverAll(a.groups, qs);
      DeliverAll(groups, ps + qs) == Delivery(b.groups, a.events + b.events)
    decreases |ps|
  {
    if ps == [] {
      assert ps + qs == qs;
    } else {
      var d := Deliver(groups, ps[0]);
      assert (ps + qs)[0] == ps[0];
      assert (ps + qs)[1..] == ps[1..] + qs;
      DeliverAllAppend(d.groups, ps[1..], qs);
    }
  }

  /** The "EG" packet of a group hands over every packet of that group since it was last
      completed, in arrival order with the "EG" packet last, and removes the group. */
  lemma EndGroupHandsOver(groups: Groups, ps: seq<AppPacket>, eg: AppPacket)
    requires EndsGroup(eg) && NoEndOf(ps, eg.groupId)
    ensures var d := DeliverAll(groups, ps + [eg]);
      && |d.events| >= 2
      && d.events[|d.events| - 1] == GroupCompleted(eg.groupId, GroupOf(groups, eg.groupId) + InGroup(ps, eg.groupId) + [eg])
      && d.events[|d.events| - 2] == PacketDecoded(eg)
      && eg.groupId !in d.groups
  {
    DeliverAllAppend(groups, ps, [eg]);
    GroupCollects(groups, ps, eg.groupId);
    var a := DeliverAll(groups, ps);
    assert DeliverAll(a.groups, [eg]) == Delivery(a.groups - {eg.groupId},
      [PacketDecoded(eg), GroupCompleted(eg.groupId, GroupOf(a.groups, eg.groupId) + [eg])]);
  }
}
