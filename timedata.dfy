/**
 * TimeData, the body of a TIME reply (data/TimeData.java, and its identical
 * copy nio/TimeData.java): a millisecond timestamp as an eight-byte
 * big-endian long.
 */
module TimeDataCodec {
  import opened Wrappers
  import opened Bytes

  /** A timestamp in milliseconds; a Java long. */
  datatype TimeData = TimeData(timestamp: int)

  /** getLength() / getByteLength(): Long.BYTES, whatever the timestamp. */
  const TIME_DATA_LENGTH: nat := 8

  /** getBytes(): putLong into a fresh eight-byte buffer. */
  function TimeDataBytes(t: TimeData): (r: seq<byte>)
    requires IsLong(t.timestamp)
    ensures |r| == TIME_DATA_LENGTH
  {
    LongBytes(t.timestamp)
  }

  /** fromBytes(bytes): getLong on the array; fewer than eight bytes underflow. */
  function TimeDataOf(bytes: seq<byte>): (r: Result<TimeData, Exception>)
    ensures r.Ok? <==> |bytes| >= 8
    ensures r.Err? ==> r.error == Underflow
    ensures r.Ok? ==> IsLong(r.value.timestamp)
  {
    if |bytes| < 8 then Err(Underflow) else Ok(TimeData(ReadLong(bytes)))
  }

  /** fromBytes(getBytes(t)) has timestamp t for every long, and bytes beyond the eighth are ignored. */
  lemma TimeDataRoundTrip(t: TimeData, rest: seq<byte>)
    requires IsLong(t.timestamp)
    ensures TimeDataOf(TimeDataBytes(t) + rest) == Ok(t)
  {
    LongRoundTrip(t.timestamp, rest);
  }

  /** Only the first eight bytes are read. */
  lemma TimeDataPrefix(bytes: seq<byte>, rest: seq<byte>)
    requires |bytes| >= 8
    ensures TimeDataOf(bytes + rest) == TimeDataOf(bytes)
  {
    assert (bytes + rest)[..8] == bytes[..8];
  }

  /** Every eight-byte string is the encoding of the timestamp it decodes to. */
  lemma TimeDataBytesOnto(bytes: seq<byte>)
    requires |bytes| == 8
    ensures TimeDataOf(bytes).Ok? && TimeDataBytes(TimeDataOf(bytes).value) == bytes
  {
    LongBytesOfRead(bytes);
  }
}
