/** The C++ BPG encoder (`bpg_encoder.cpp`): a packet is appended to a byte vector as a
    header of `sizeof(PacketHeader)` bytes, whose first 14 bytes hold group id, target id,
    type letters and data length and whose tail is left zero, followed by the
    hybrid-data payload. */
module BpgCppEncoder {
  import opened Bytes
  import opened BpgTypes

  /** `sizeof(PacketHeader)` for the struct the encoder and decoder use: four 32-bit fields and
      two type letters, padded to 20 bytes on the usual ABIs. */
  const HEADER_STRUCT_SIZE: nat := 20

  /** Bytes of the header that carry fields: group id, target id, type letters, data length. */
  const HEADER_FIELDS_SIZE: nat := 14

  /** The letters "EG" that mark the last packet of a group. */
  const END_GROUP: PacketType := ['E' as int, 'G' as int]

  datatype PacketHeader = PacketHeader(groupId: u32, targetId: u32, tl: PacketType, dataLength: u32)

  datatype HybridData = HybridData(metadataJson: seq<byte>, binaryBytes: seq<byte>)

  datatype AppPacket = AppPacket(groupId: u32, targetId: u32, tl: PacketType, content: HybridData)

  /** The growable byte vector the encoder appends to (`BinaryData&`). */
  class ByteVector {
    var data: seq<byte>

    constructor ()
      ensures data == []
    {
      data := [];
    }
  }

  /** `calculateAppDataSize`: length field, metadata and binary bytes. */
  function CalculateAppDataSize(data: HybridData): (r: nat)
    ensures |data.metadataJson| < U32_LIMIT ==> r == |AppDataBytes(data)|
  {
    JSON_LENGTH_SIZE + |data.metadataJson| + |data.binaryBytes|
  }

  /** The bytes `serializeHeader` appends. */
  function HeaderBytes(h: PacketHeader): seq<byte>
  {
    U32BE(h.groupId) + U32BE(h.targetId) + h.tl + U32BE(h.dataLength)
      + Zeros(HEADER_STRUCT_SIZE - HEADER_FIELDS_SIZE)
  }

  /** The bytes `serializeAppData` appends: the metadata length cut to 32 bits, that many
      metadata bytes, then the binary bytes. */
  function AppDataBytes(data: HybridData): seq<byte>
  {
    var jsonLen := Trunc32(|data.metadataJson|);
    U32BE(jsonLen) + data.metadataJson[..jsonLen] + data.binaryBytes
  }

  /** The header `encodePacket` builds for a packet. */
  function HeaderOf(p: AppPacket): PacketHeader
  {
    PacketHeader.PacketHeader(p.groupId, p.targetId, p.tl, Trunc32(CalculateAppDataSize(p.content)))
  }

  /** The bytes `encodePacket` appends. */
  function PacketBytes(p: AppPacket): seq<byte>
  {
    HeaderBytes(HeaderOf(p)) + AppDataBytes(p.content)
  }

  /** A packet whose lengths all fit the 32-bit fields, so that nothing is cut. */
  predicate Encodable(p: AppPacket)
  {
    CalculateAppDataSize(p.content) < U32_LIMIT
  }

  lemma OverwriteAfter(a: seq<byte>, n: nat, bytes: seq<byte>)
    requires |bytes| <= n
    ensures Overwrite(a + Zeros(n), |a|, bytes) == a + bytes + Zeros(n - |bytes|)
  {
    var s := Overwrite(a + Zeros(n), |a|, bytes);
    assert s[|a| + |bytes|..] == Zeros(n - |bytes|);
    assert s == s[..|a|] + s[|a|..|a| + |bytes|] + s[|a| + |bytes|..];
  }

  /** One `memcpy` into the zeroed tail of the vector: `bytes` replace the first zeros. */
  method CopyIntoTail(buffer: ByteVector, ghost front: seq<byte>, ptr: nat, bytes: seq<byte>, ghost n: nat)
    requires buffer.data == front + Zeros(n) && ptr == |front| && |bytes| <= n
    modifies buffer
    ensures buffer.data == front + bytes + Zeros(n - |bytes|)
  {
    OverwriteAfter(front, n, bytes);
    buffer.data := Overwrite(buffer.data, ptr, bytes);
  }

  /** `serializeHeader`: grow the vector by a zeroed header and copy the four fields to its
      front, in network byte order. */
  method SerializeHeader(header: PacketHeader, buffer: ByteVector)
    modifies buffer
    ensures buffer.data == old(buffer.data) + HeaderBytes(header)
  {
    var initialSize := |buffer.data|;
    ghost var front := buffer.data;
    buffer.data := buffer.data + Zeros(HEADER_STRUCT_SIZE);
    var ptr := initialSize;
    CopyIntoTail(buffer, front, ptr, U32BE(header.groupId), HEADER_STRUCT_SIZE);
    ptr := ptr + 4;
    front := front + U32BE(header.groupId);
    CopyIntoTail(buffer, front, ptr, U32BE(header.targetId), HEADER_STRUCT_SIZE - 4);
    ptr := ptr + 4;
    front := front + U32BE(header.targetId);
    CopyIntoTail(buffer, front, ptr, header.tl, HEADER_STRUCT_SIZE - 8);
    ptr := ptr + 2;
    front := front + header.tl;
    CopyIntoTail(buffer, front, ptr, U32BE(header.dataLength), HEADER_STRUCT_SIZE - 10);
  }

  /** `serializeAppData`: append the metadata length, the metadata and the binary bytes.
      It has no failing path. */
  method SerializeAppData(data: HybridData, buffer: ByteVector) returns (err: BpgError)
    modifies buffer
    ensures err == Success
    ensures buffer.data == old(buffer.data) + AppDataBytes(data)
  {
    var jsonLen := Trunc32(|data.metadataJson|);
    buffer.data := buffer.data + U32BE(jsonLen);
    if jsonLen > 0 {
      buffer.data := buffer.data + data.metadataJson[..jsonLen];
    }
    if |data.binaryBytes| != 0 {
      buffer.data := buffer.data + data.binaryBytes;
    }
    return Success;
  }

  /** `encodePacket`: append the header and the payload to `outBuffer`, keeping what it held.
      Because `serializeAppData` cannot fail, its error check never returns early and is not
      repeated here. */
  method EncodePacket(packet: AppPacket, outBuffer: ByteVector) returns (err: BpgError)
    modifies outBuffer
    ensures err == Success
    ensures outBuffer.data == old(outBuffer.data) + PacketBytes(packet)
  {
    var dataSize := CalculateAppDataSize(packet.content);
    var header := PacketHeader.PacketHeader(packet.groupId, packet.targetId, packet.tl, Trunc32(dataSize));
    SerializeHeader(header, outBuffer);
    err := SerializeAppData(packet.content, outBuffer);
    assert outBuffer.data == old(outBuffer.data) + HeaderBytes(header) + AppDataBytes(packet.content);
  }

  /** The encoding of each packet of `ps`, in order. */
  function Encodings(ps: seq<AppPacket>): (r: seq<seq<byte>>)
    ensures |r| == |ps|
    ensures forall i :: 0 <= i < |ps| ==> r[i] == PacketBytes(ps[i])
  {
    if ps == [] then [] else [PacketBytes(ps[0])] + Encodings(ps[1..])
  }

  /** The encodings of `ps`, back to back, in order. */
  function EncodeAll(ps: seq<AppPacket>): seq<byte>
  {
    Concat(Encodings(ps))
  }

  /** The `total_size` sum `encodePacketGroup` reserves. */
  function TotalSize(ps: seq<AppPacket>): nat
  {
    if ps == [] then 0
    else TotalSize(ps[..|ps| - 1]) + HEADER_STRUCT_SIZE + CalculateAppDataSize(ps[|ps| - 1].content)
  }

  /** `encodePacketGroup`: clear the vector, add up the sizes, then append each packet's
      encoding in group order. Because `encodePacket` cannot fail, the clear-and-return on
      error is never reached and is not repeated here. */
  method EncodePacketGroup(group: seq<AppPacket>, outBuffer: ByteVector) returns (err: BpgError)
    modifies outBuffer
    ensures err == Success
    ensures outBuffer.data == EncodeAll(group)
    ensures (forall i :: 0 <= i < |group| ==> |group[i].content.metadataJson| < U32_LIMIT) ==>
      |outBuffer.data| == TotalSize(group)
  {
    outBuffer.data := [];
    var totalSize := 0;
    for i := 0 to |group|
      invariant totalSize == TotalSize(group[..i])
    {
      assert group[..i + 1][..i] == group[..i];
      totalSize := totalSize + HEADER_STRUCT_SIZE + CalculateAppDataSize(group[i].content);
    }
    for i := 0 to |group|
      invariant outBuffer.data == EncodeAll(group[..i])
    {
      assert group[..i + 1] == group[..i] + [group[i]];
      EncodeAllSnoc(group[..i], group[i]);
      err := EncodePacket(group[i], outBuffer);
    }
    assert group[..|group|] == group;
    if forall i :: 0 <= i < |group| ==> |group[i].content.metadataJson| < U32_LIMIT {
      GroupSizeIsReserved(group);
      assert |outBuffer.data| == totalSize;
    }
    return Success;
  }

  // ---------------------------------------------------------------- properties

  /** Layout of an encoded packet: the fields stand at fixed offsets in network byte order,
      the header tail is zero, `data_length` is `calculateAppDataSize` cut to 32 bits, and the
      packet is exactly `sizeof(PacketHeader) + calculateAppDataSize` bytes long whenever the
      metadata length fits 32 bits. */
  lemma PacketLayout(p: AppPacket)
    ensures var b := PacketBytes(p);
      var jsonLen := Trunc32(|p.content.metadataJson|);
      var data := HEADER_STRUCT_SIZE + JSON_LENGTH_SIZE;
      && |b| == data + jsonLen + |p.content.binaryBytes|
      && (|p.content.metadataJson| < U32_LIMIT ==> |b| == HEADER_STRUCT_SIZE + CalculateAppDataSize(p.content))
      && ReadU32BE(b, 0) == p.groupId
      && ReadU32BE(b, 4) == p.targetId
      && b[8..10] == p.tl
      && ReadU32BE(b, 10) == Trunc32(CalculateAppDataSize(p.content))
      && (forall i :: HEADER_FIELDS_SIZE <= i < HEADER_STRUCT_SIZE ==> b[i] == 0)
      && ReadU32BE(b, HEADER_STRUCT_SIZE) == jsonLen
      && b[data..data + jsonLen] == p.content.metadataJson[..jsonLen]
      && b[data + jsonLen..] == p.content.binaryBytes
  {
    var h := HeaderOf(p);
    var b := PacketBytes(p);
    var jsonLen := Trunc32(|p.content.metadataJson|);
    var tail := Zeros(HEADER_STRUCT_SIZE - HEADER_FIELDS_SIZE);
    var ad := AppDataBytes(p.content);
    assert b == U32BE(h.groupId) + U32BE(h.targetId) + h.tl + U32BE(h.dataLength) + tail + ad;
    ReadU32BEAt(b, 0, h.groupId);
    ReadU32BEAt(b, 4, h.targetId);
    ReadU32BEAt(b, 10, h.dataLength);
    assert b[HEADER_STRUCT_SIZE..] == ad;
    ReadU32BEAt(b, HEADER_STRUCT_SIZE, jsonLen);
    assert b[HEADER_FIELDS_SIZE..HEADER_STRUCT_SIZE] == tail;
  }

  /** An encoded group is exactly as long as the `total_size` `encodePacketGroup` reserves,
      provided no metadata length has to be cut to 32 bits. */
  lemma {:induction false} GroupSizeIsReserved(ps: seq<AppPacket>)
    requires forall i :: 0 <= i < |ps| ==> |ps[i].content.metadataJson| < U32_LIMIT
    ensures |EncodeAll(ps)| == TotalSize(ps)
    decreases |ps|
  {
    if ps != [] {
      var init := ps[..|ps| - 1];
      assert forall i :: 0 <= i < |init| ==> init[i] == ps[i];
      GroupSizeIsReserved(init);
      PacketLayout(ps[|ps| - 1]);
      assert init + [ps[|ps| - 1]] == ps;
      EncodeAllSnoc(init, ps[|ps| - 1]);
    }
  }

  lemma {:induction false} EncodingsAppend(ps: seq<AppPacket>, qs: seq<AppPacket>)
    ensures Encodings(ps + qs) == Encodings(ps) + Encodings(qs)
    decreases |ps|
  {
    if ps == [] {
      assert ps + qs == qs;
    } else {
      assert (ps + qs)[1..] == ps[1..] + qs;
      EncodingsAppend(ps[1..], qs);
    }
  }

  /** Encoding one more packet appends its encoding. */
  lemma EncodeAllSnoc(ps: seq<AppPacket>, p: AppPacket)
    ensures EncodeAll(ps + [p]) == EncodeAll(ps) + PacketBytes(p)
  {
    EncodingsAppend(ps, [p]);
    ConcatAppend(Encodings(ps), Encodings([p]));
    assert Encodings([p]) == [PacketBytes(p)] + Encodings([]);
    assert Concat([PacketBytes(p)]) == PacketBytes(p) + Concat([]);
  }

  /** Encoding a group is encoding its first packet and then the rest. */
  lemma EncodeAllCons(ps: seq<AppPacket>)
    requires ps != []
    ensures EncodeAll(ps) == PacketBytes(ps[0]) + EncodeAll(ps[1..])
  {
    assert Encodings(ps)[1..] == Encodings(ps[1..]);
  }
}
