/** The BPG packet types of `bpg_types.h` and the encoders they carry: an 18-byte header laid
    out as type letters, property word, target id, group id and data length, with the
    end-of-group flag in the lowest bit of the property word, followed by the hybrid-data
    payload; everything is written into a `BufferWriter` of fixed capacity after a check
    that the bytes fit. */
module BpgTypes {
  import opened Bytes

  /** `BPG_HEADER_SIZE`: tl(2) + prop(4) + target_id(4) + group_id(4) + data_length(4). */
  const BPG_HEADER_SIZE: nat := 18

  /** `BPG_PROP_EG_BIT_MASK`: the end-of-group flag is the lowest bit of `prop`. */
  const BPG_PROP_EG_BIT_MASK: u32 := 1

  const JSON_LENGTH_SIZE: nat := 4

  datatype BpgError =
    | Success
    | EncodingError
    | DecodingError
    | BufferTooSmall
    | InvalidPacketHeader
    | IncompletePacket
    | LinkLayerError

  /** `char[2]`: the two type letters, as bytes. */
  type PacketType = s: seq<byte> | |s| == 2 witness [0, 0]

  datatype PacketHeader = PacketHeader(groupId: u32, targetId: u32, tl: PacketType, prop: u32, dataLength: u32)

  /** The payload of every packet: a metadata string (as its bytes) and binary bytes. */
  datatype HybridData = HybridData(metadataStr: seq<byte>, binaryBytes: seq<byte>)

  /** An application packet; `content` is a shared pointer that may be null. */
  datatype AppPacket = AppPacket(groupId: u32, targetId: u32, tl: PacketType, isEndOfGroup: bool,
                                 content: Option<HybridData>)

  /** The output buffer: a fixed capacity and the bytes written so far. */
  class BufferWriter {
    const capacity: nat
    var written: seq<byte>

    constructor (capacity: nat)
      ensures this.capacity == capacity && written == []
    {
      this.capacity := capacity;
      written := [];
    }

    /** `canWrite(n)`: `n` more bytes fit in the remaining capacity. */
    predicate CanWrite(n: nat)
      reads this
    {
      |written| + n <= capacity
    }

    /** `write(src, n)`: append `n` bytes; every caller checks `canWrite` first. */
    method Write(bytes: seq<byte>)
      requires CanWrite(|bytes|)
      modifies this
      ensures written == old(written) + bytes
    {
      written := written + bytes;
    }
  }

  /** The 18 bytes `PacketHeader::encode` writes, in the documented field order. */
  function HeaderBytes(h: PacketHeader): seq<byte>
  {
    h.tl + U32BE(h.prop) + U32BE(h.targetId) + U32BE(h.groupId) + U32BE(h.dataLength)
  }

  /** The header fields, read back from the first 18 bytes of `b`. */
  function ReadHeader(b: seq<byte>): (r: Option<PacketHeader>)
    ensures r.Some? <==> |b| >= BPG_HEADER_SIZE
  {
    if |b| < BPG_HEADER_SIZE then None
    else Some(PacketHeader(ReadU32BE(b, 10), ReadU32BE(b, 6), b[..2], ReadU32BE(b, 2), ReadU32BE(b, 14)))
  }

  /** The header is 18 bytes whatever its fields, and each field is read back from where it
      was written, whatever follows the header. */
  lemma HeaderRoundTrip(h: PacketHeader, rest: seq<byte>)
    ensures |HeaderBytes(h)| == BPG_HEADER_SIZE
    ensures ReadHeader(HeaderBytes(h) + rest) == Some(h)
  {
    var b := HeaderBytes(h) + rest;
    ReadAfterWrite(h.prop, h.tl, U32BE(h.targetId) + U32BE(h.groupId) + U32BE(h.dataLength) + rest);
    assert b == h.tl + U32BE(h.prop) + (U32BE(h.targetId) + U32BE(h.groupId) + U32BE(h.dataLength) + rest);
    ReadAfterWrite(h.targetId, h.tl + U32BE(h.prop), U32BE(h.groupId) + U32BE(h.dataLength) + rest);
    assert b == (h.tl + U32BE(h.prop)) + U32BE(h.targetId) + (U32BE(h.groupId) + U32BE(h.dataLength) + rest);
    ReadAfterWrite(h.groupId, h.tl + U32BE(h.prop) + U32BE(h.targetId), U32BE(h.dataLength) + rest);
    assert b == (h.tl + U32BE(h.prop) + U32BE(h.targetId)) + U32BE(h.groupId) + (U32BE(h.dataLength) + rest);
    ReadAfterWrite(h.dataLength, h.tl + U32BE(h.prop) + U32BE(h.targetId) + U32BE(h.groupId), rest);
    assert b[..2] == h.tl;
  }

  /** Distinct headers are written as distinct bytes. */
  lemma HeaderBytesInjective(h1: PacketHeader, h2: PacketHeader)
    requires HeaderBytes(h1) == HeaderBytes(h2)
    ensures h1 == h2
  {
    HeaderRoundTrip(h1, []);
    HeaderRoundTrip(h2, []);
  }

  /** `PacketHeader::encode`: with room for 18 bytes, write the header and succeed; without,
      write nothing and report `BufferTooSmall`. */
  method EncodeHeader(header: PacketHeader, writer: BufferWriter) returns (err: BpgError)
    modifies writer
    ensures old(writer.CanWrite(BPG_HEADER_SIZE)) ==>
      err == Success && writer.written == old(writer.written) + HeaderBytes(header)
    ensures !old(writer.CanWrite(BPG_HEADER_SIZE)) ==>
      err == BufferTooSmall && writer.written == old(writer.written)
  {
    if !writer.CanWrite(BPG_HEADER_SIZE) {
      return BufferTooSmall;
    }
    writer.Write(header.tl);
    writer.Write(U32BE(header.prop));
    writer.Write(U32BE(header.targetId));
    writer.Write(U32BE(header.groupId));
    writer.Write(U32BE(header.dataLength));
    err := Success;
  }

  /** `HybridData::calculateEncodedSize`: length field, metadata and binary bytes. */
  function CalculateEncodedSize(d: HybridData): (r: nat)
    ensures MetadataFits(d) ==> r == |HybridBytes(d)|
  {
    JSON_LENGTH_SIZE + |d.metadataStr| + |d.binaryBytes|
  }

  /** The bytes `HybridData::encode` writes: the metadata length cut to 32 bits, that many
      metadata bytes, then the binary bytes. */
  function HybridBytes(d: HybridData): seq<byte>
  {
    var jsonLen := Trunc32(|d.metadataStr|);
    U32BE(jsonLen) + d.metadataStr[..jsonLen] + d.binaryBytes
  }

  /** A payload whose metadata length fits the 32-bit length field. */
  predicate MetadataFits(d: HybridData)
  {
    |d.metadataStr| < U32_LIMIT
  }

  /** When the metadata length fits its field, the payload written is as long as
      `calculateEncodedSize` says, and a reader finds the length, the metadata and the binary
      bytes where they were written. */
  lemma HybridLayout(d: HybridData)
    requires MetadataFits(d)
    ensures var b := HybridBytes(d);
      && |b| == CalculateEncodedSize(d)
      && ReadU32BE(b, 0) == |d.metadataStr|
      && b[JSON_LENGTH_SIZE..JSON_LENGTH_SIZE + |d.metadataStr|] == d.metadataStr
      && b[JSON_LENGTH_SIZE + |d.metadataStr|..] == d.binaryBytes
  {
    var m := d.metadataStr;
    assert m[..Trunc32(|m|)] == m;
    ReadAfterWrite(|m|, [], m + d.binaryBytes);
    assert HybridBytes(d) == [] + U32BE(|m|) + (m + d.binaryBytes);
  }

  /** `HybridData::encode`: with room for the length field, the (cut) metadata and the binary
      bytes, write them and succeed; without, write nothing and report `BufferTooSmall`. */
  method EncodeHybrid(d: HybridData, writer: BufferWriter) returns (err: BpgError)
    modifies writer
    ensures old(writer.CanWrite(|HybridBytes(d)|)) ==>
      err == Success && writer.written == old(writer.written) + HybridBytes(d)
    ensures !old(writer.CanWrite(|HybridBytes(d)|)) ==>
      err == BufferTooSmall && writer.written == old(writer.written)
  {
    var jsonLen := Trunc32(|d.metadataStr|);
    var requiredSize := JSON_LENGTH_SIZE + jsonLen + |d.binaryBytes|;
    if !writer.CanWrite(requiredSize) {
      return BufferTooSmall;
    }
    writer.Write(U32BE(jsonLen));
    if jsonLen > 0 {
      writer.Write(d.metadataStr[..jsonLen]);
    }
    if |d.binaryBytes| > 0 {
      writer.Write(d.binaryBytes);
    }
    assert writer.written == old(writer.written) + HybridBytes(d);
    err := Success;
  }

  /** The property word of a packet: the end-of-group mask when the flag is set, else 0. */
  function PropOf(p: AppPacket): u32
  {
    if p.isEndOfGroup then BPG_PROP_EG_BIT_MASK else 0
  }

  /** The header `AppPacket::encode` builds: data length 0 for a null content, otherwise the
      encoded size of the content cut to 32 bits. */
  function HeaderOf(p: AppPacket): PacketHeader
  {
    var dataLen := if p.content.None? then 0 else Trunc32(CalculateEncodedSize(p.content.value));
    PacketHeader(p.groupId, p.targetId, p.tl, PropOf(p), dataLen)
  }

  /** The bytes a successful `AppPacket::encode` writes. */
  function PacketBytes(p: AppPacket): seq<byte>
  {
    HeaderBytes(HeaderOf(p)) + (if p.content.None? then [] else HybridBytes(p.content.value))
  }

  /** A packet whose payload size fits the 32-bit data-length field, so that nothing is cut. */
  predicate Encodable(p: AppPacket)
  {
    p.content.Some? ==> CalculateEncodedSize(p.content.value) < U32_LIMIT
  }

  /** The end-of-group bit of the property word (`prop & BPG_PROP_EG_BIT_MASK`). */
  function EndOfGroupBit(prop: u32): bool
  {
    prop % 2 == 1
  }

  /** An encodable packet is written as its header followed by exactly `data_length` payload
      bytes; the header carries the packet's ids and letters, and its end-of-group bit is set
      exactly when the packet ends its group. */
  lemma PacketLayout(p: AppPacket)
    requires Encodable(p)
    ensures var b := PacketBytes(p);
      var h := ReadHeader(b);
      && h.Some?
      && h.value.groupId == p.groupId && h.value.targetId == p.targetId && h.value.tl == p.tl
      && (EndOfGroupBit(h.value.prop) <==> p.isEndOfGroup)
      && |b| == BPG_HEADER_SIZE + h.value.dataLength
      && (p.content.Some? ==> b[BPG_HEADER_SIZE..] == HybridBytes(p.content.value))
      && (p.content.None? ==> h.value.dataLength == 0)
  {
    var h := HeaderOf(p);
    var payload := if p.content.None? then [] else HybridBytes(p.content.value);
    HeaderRoundTrip(h, payload);
    if p.content.Some? {
      var d := p.content.value;
      assert MetadataFits(d);
      HybridLayout(d);
    }
  }

  /** `AppPacket::encode`. With a null content only the header is written, with data length
      0. Otherwise room for the header and `data_length` bytes is checked before anything is
      written; the header is then written, and then the content, whose own check can still
      fail when its size was cut to 32 bits, leaving only the header behind. */
  method EncodeAppPacket(p: AppPacket, writer: BufferWriter) returns (err: BpgError)
    modifies writer
    ensures p.content.None? ==>
      if old(writer.CanWrite(BPG_HEADER_SIZE)) then
        err == Success && writer.written == old(writer.written) + PacketBytes(p)
      else
        err == BufferTooSmall && writer.written == old(writer.written)
    ensures p.content.Some? && !old(writer.CanWrite(BPG_HEADER_SIZE + HeaderOf(p).dataLength)) ==>
      err == BufferTooSmall && writer.written == old(writer.written)
    ensures p.content.Some? && old(writer.CanWrite(BPG_HEADER_SIZE + HeaderOf(p).dataLength)) ==>
      if old(writer.CanWrite(|PacketBytes(p)|)) then
        err == Success && writer.written == old(writer.written) + PacketBytes(p)
      else
        err == BufferTooSmall && writer.written == old(writer.written) + HeaderBytes(HeaderOf(p))
    ensures Encodable(p) && old(writer.CanWrite(|PacketBytes(p)|)) ==>
      err == Success && writer.written == old(writer.written) + PacketBytes(p)
  {
    HeaderRoundTrip(HeaderOf(p), []);
    assert HeaderBytes(HeaderOf(p)) + [] == HeaderBytes(HeaderOf(p));
    if p.content.None? {
      var header := PacketHeader(p.groupId, p.targetId, p.tl, PropOf(p), 0);
      assert PacketBytes(p) == HeaderBytes(header) + [];
      err := EncodeHeader(header, writer);
      return;
    }
    var content := p.content.value;
    var dataLen := Trunc32(CalculateEncodedSize(content));
    var header := PacketHeader(p.groupId, p.targetId, p.tl, PropOf(p), dataLen);
    var totalRequired := BPG_HEADER_SIZE + dataLen;
    if !writer.CanWrite(totalRequired) {
      return BufferTooSmall;
    }
    if Encodable(p) {
      assert MetadataFits(content);
      HybridLayout(content);
    }
    // The header check cannot fail after the check above, so its error path is not modelled.
    err := EncodeHeader(header, writer);
    err := EncodeHybrid(content, writer);
  }
}
