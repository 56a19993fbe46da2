/**
 * The two layers of a message on the wire (data/Payload.java, data/Packet.java):
 * a payload is one command tag byte followed by the command body, and a packet
 * is a four-byte big-endian payload length followed by the payload.
 */
module Frames {
  import opened Wrappers
  import opened Bytes
  import opened Commands

  /** A command and its body; a body of None is Java's null array. */
  datatype Payload = Payload(cmd: Cmd, body: Option<seq<byte>>)

  /** The body bytes a payload carries: none for a null body. */
  function BodyBytes(body: Option<seq<byte>>): (r: seq<byte>)
    ensures body.None? ==> r == []
    ensures body.Some? ==> r == body.value
  {
    if body.Some? then body.value else []
  }

  /** Payload.getByteLength(): the tag's length plus the body's, a null body counting as 0. */
  function PayloadByteLength(p: Payload): (r: nat)
    ensures r == BYTE_LENGTH + |BodyBytes(p.body)|
    ensures p.body == None ==> r == 1
  {
    BYTE_LENGTH + (if p.body.Some? then |p.body.value| else 0)
  }

  /** Payload.getBytes(): the tag, then the body if there is one. */
  function PayloadBytes(p: Payload): (r: seq<byte>)
    ensures |r| == PayloadByteLength(p)
    ensures r[0] == Tag(p.cmd)
    ensures r[1..] == BodyBytes(p.body)
  {
    var bytes := GetBytes(p.cmd);
    if p.body.Some? then bytes + p.body.value else bytes
  }

  /** A null body and an empty body are written identically. */
  lemma NullAndEmptyBodyAgree(c: Cmd)
    ensures PayloadBytes(Payload(c, None)) == PayloadBytes(Payload(c, Some([])))
    ensures PayloadBytes(Payload(c, None)) == [Tag(c)]
  {
  }

  /** The payload encoding is injective up to the null/empty body identification. */
  lemma PayloadBytesInjective(p: Payload, q: Payload)
    requires PayloadBytes(p) == PayloadBytes(q)
    ensures p.cmd == q.cmd && BodyBytes(p.body) == BodyBytes(q.body)
  {
    TagsDistinct(p.cmd, q.cmd);
    assert PayloadBytes(p)[1..] == PayloadBytes(q)[1..];
  }

  /** A packet, holding the payload's length as computed when it was made. */
  datatype Packet = Packet(payloadByteLength: int, payload: Payload)

  /**
   * Packet sizes are Java ints: a payload whose packet would not fit an int
   * overflows getByteLength, so only payloads with `Fits` are encodable.
   */
  predicate Fits(p: Payload)
  {
    4 + PayloadByteLength(p) <= INT_MAX
  }

  /** new Packet(payload): records payload.getByteLength(). */
  function NewPacket(p: Payload): (r: Packet)
    ensures r.payload == p && r.payloadByteLength == PayloadByteLength(p)
  {
    Packet(PayloadByteLength(p), p)
  }

  /** Packet.getByteLength(): the length field does not count itself. */
  function PacketByteLength(pk: Packet): (r: int)
    ensures r == 4 + pk.payloadByteLength
  {
    4 + pk.payloadByteLength
  }

  /** Packet.getBytes(): the payload length as a big-endian int, then the payload. */
  function PacketBytes(pk: Packet): (r: seq<byte>)
    requires pk == NewPacket(pk.payload) && Fits(pk.payload)
    ensures |r| == PacketByteLength(pk)
    ensures ReadInt(r) == pk.payloadByteLength
    ensures r[4..] == PayloadBytes(pk.payload)
  {
    var r := IntBytes(pk.payloadByteLength) + PayloadBytes(pk.payload);
    IntRoundTrip(pk.payloadByteLength, PayloadBytes(pk.payload));
    r
  }

  /** The bytes a sender writes for a payload: PacketEncoder delegates to Packet.getBytes. */
  function Encode(p: Payload): (r: seq<byte>)
    requires Fits(p)
    ensures |r| == 4 + PayloadByteLength(p)
    ensures ReadInt(r) == |r| - 4
    ensures r[4..] == PayloadBytes(p)
  {
    PacketBytes(NewPacket(p))
  }
}
