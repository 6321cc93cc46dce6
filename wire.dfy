/**
 * Wire-level vocabulary shared by the avatar mixer: bytes, RFC 4122 UUIDs,
 * packet type tags and the two-byte packet header (type tag, then version).
 */
module Wire {

  type Byte = b: int | 0 <= b < 256

  /** A UUID in its 16-byte RFC 4122 form, as `QUuid::toRfc4122` yields it. */
  type Uuid = s: seq<Byte> | |s| == NUM_BYTES_RFC4122_UUID witness NilUuid()

  const NUM_BYTES_RFC4122_UUID: nat := 16

  /** The largest datagram the mixer ever writes. */
  const MAX_PACKET_SIZE: nat := 1500

  /** Packet type tags (the first byte of every datagram). */
  const PACKET_TYPE_HEAD_DATA: Byte := 72         // 'H'
  const PACKET_TYPE_KILL_AVATAR: Byte := 75       // 'K'
  const PACKET_TYPE_BULK_AVATAR_DATA: Byte := 88  // 'X'

  /** Size of the header written by `populateTypeAndVersion`. */
  const NUM_HEADER_BYTES: nat := 2

  /** The null UUID (all zero bits), what `QUuid()` is. */
  function NilUuid(): (u: seq<Byte>)
    ensures |u| == NUM_BYTES_RFC4122_UUID
    ensures forall i :: 0 <= i < |u| ==> u[i] == 0
  {
    seq(NUM_BYTES_RFC4122_UUID, i => 0)
  }

  /** The version byte of a packet type; every type is at version 0 here. */
  function VersionForPacketType(packetType: Byte): Byte
  {
    0
  }

  /** The header `populateTypeAndVersion` writes: the type tag, then its version. */
  function Header(packetType: Byte): (h: seq<Byte>)
    ensures |h| == NUM_HEADER_BYTES && h[0] == packetType
  {
    [packetType, VersionForPacketType(packetType)]
  }

  /**
   * `QUuid::fromRfc4122`: exactly 16 bytes are read as a UUID; any other
   * length gives the null UUID.
   */
  function UuidFromRfc4122(bytes: seq<Byte>): (u: Uuid)
    ensures |bytes| == NUM_BYTES_RFC4122_UUID ==> u == bytes
    ensures |bytes| != NUM_BYTES_RFC4122_UUID ==> u == NilUuid()
  {
    if |bytes| == NUM_BYTES_RFC4122_UUID then bytes else NilUuid()
  }

  /**
   * `QByteArray::mid(pos, len)`: the bytes from `pos` on, at most `len` of
   * them; empty when `pos` is past the end.
   */
  function Mid(data: seq<Byte>, pos: nat, len: nat): (r: seq<Byte>)
    ensures |r| <= len
    ensures pos + len <= |data| ==> r == data[pos..pos + len]
    ensures pos >= |data| ==> r == []
  {
    if pos >= |data| then []
    else if pos + len <= |data| then data[pos..pos + len]
    else data[pos..]
  }

  /** The UUID that follows the packet header of a datagram. */
  function UuidAfterHeader(datagram: seq<Byte>): (u: Uuid)
    ensures |datagram| >= NUM_HEADER_BYTES + NUM_BYTES_RFC4122_UUID ==>
      u == datagram[NUM_HEADER_BYTES..NUM_HEADER_BYTES + NUM_BYTES_RFC4122_UUID]
    ensures |datagram| < NUM_HEADER_BYTES + NUM_BYTES_RFC4122_UUID ==> u == NilUuid()
  {
    UuidFromRfc4122(Mid(datagram, NUM_HEADER_BYTES, NUM_BYTES_RFC4122_UUID))
  }

  /** A datagram carrying a header and a UUID gives that UUID back. */
  lemma UuidAfterHeaderOfPacket(packetType: Byte, u: Uuid, rest: seq<Byte>)
    ensures UuidAfterHeader(Header(packetType) + u + rest) == u
  {
    var d := Header(packetType) + u + rest;
    assert d[NUM_HEADER_BYTES..NUM_HEADER_BYTES + NUM_BYTES_RFC4122_UUID] == u;
  }
}
