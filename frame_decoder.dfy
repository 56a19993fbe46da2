/**
 * The inbound half of the codec: ReplayingPacketDecoder cuts the byte stream
 * into payload frames, and PayloadDecoder turns each frame into a Payload.
 *
 * A replaying decoder runs its decode step over the accumulated input as long
 * as input remains; a step that would read past the end is abandoned and the
 * bytes stay buffered until more arrive. `Drain` is what that repetition
 * yields on a given buffer; the ReplayingPacketDecoder class is the buffer
 * that successive reads from the socket feed.
 */
module FrameDecoder {
  import opened Wrappers
  import opened Bytes
  import opened Commands
  import opened Cursor
  import opened Frames

  /**
   * The outcome of decoding a buffer: the frames emitted, the bytes still
   * buffered, and whether a frame header was rejected (a negative length makes
   * readBytes throw, which Netty raises as a decoder exception).
   */
  datatype Drained = Drained(frames: seq<seq<byte>>, rest: seq<byte>, failed: bool)

  /** Repeated decode steps over `buf`: each takes an int length n and then n bytes. */
  function Drain(buf: seq<byte>): (r: Drained)
    ensures |r.rest| <= |buf| && r.rest == buf[|buf| - |r.rest|..]
    decreases |buf|
  {
    if |buf| < 4 then Drained([], buf, false)
    else
      var n := ReadInt(buf);
      if n < 0 then Drained([], buf, true)
      else if |buf| - 4 < n then Drained([], buf, false)
      else
        Prepend([buf[4..4 + n]], Drain(buf[4 + n..]))
  }

  /** Frames emitted before the decoding `d` continues. */
  function Prepend(frames: seq<seq<byte>>, d: Drained): Drained
  {
    Drained(frames + d.frames, d.rest, d.failed)
  }

  /** The bytes that a list of frames came from: each frame behind its int length. */
  function Framed(frames: seq<seq<byte>>): (r: seq<byte>)
    requires forall i :: 0 <= i < |frames| ==> |frames[i]| <= INT_MAX
  {
    if frames == [] then [] else IntBytes(|frames[0]|) + frames[0] + Framed(frames[1..])
  }

  /**
   * Whatever follows a complete frame, decoding emits that frame first and
   * then decodes what follows: bytes after a frame stay buffered.
   */
  lemma FrameThenRest(frame: seq<byte>, rest: seq<byte>)
    requires |frame| <= INT_MAX
    ensures var d := Drain(IntBytes(|frame|) + frame + rest);
      d == Prepend([frame], Drain(rest))
  {
    var buf := IntBytes(|frame|) + frame + rest;
    IntRoundTrip(|frame|, frame + rest);
    assert buf == IntBytes(|frame|) + (frame + rest);
    assert buf[4..4 + |frame|] == frame;
    assert buf[4 + |frame|..] == rest;
  }

  /** Decoding a run of framed payloads gives back exactly those frames, in order. */
  lemma {:induction false} DrainFramed(frames: seq<seq<byte>>)
    requires forall i :: 0 <= i < |frames| ==> |frames[i]| <= INT_MAX
    ensures Drain(Framed(frames)) == Drained(frames, [], false)
  {
    if frames != [] {
      DrainFramed(frames[1..]);
      FrameThenRest(frames[0], Framed(frames[1..]));
      assert IntBytes(|frames[0]|) + frames[0] + Framed(frames[1..]) == Framed(frames);
      assert [frames[0]] + frames[1..] == frames;
    }
  }

  /**
   * Equivalence under partial delivery: decoding `a` and then, later, the
   * leftover of `a` followed by `b`, emits what decoding `a + b` at once
   * emits. After a rejected header, more input changes nothing that was
   * emitted and the decoder stays failed.
   */
  lemma {:induction false} DrainChunked(a: seq<byte>, b: seq<byte>)
    ensures !Drain(a).failed ==> Drain(a + b) == Prepend(Drain(a).frames, Drain(Drain(a).rest + b))
    ensures Drain(a).failed ==>
      Drain(a + b).frames == Drain(a).frames && Drain(a + b).failed
    decreases |a|
  {
    if |a| < 4 || ReadInt(a) < 0 || |a| - 4 < ReadInt(a) {
      DrainStuck(a, b);
    } else {
      var n := ReadInt(a);
      ReadIntPrefix(a, b);
      DrainChunked(a[4 + n..], b);
      DrainStep(a, b);
    }
  }

  /** A buffer with no whole frame at its front emits nothing, whatever is appended. */
  lemma DrainStuck(a: seq<byte>, b: seq<byte>)
    requires |a| < 4 || ReadInt(a) < 0 || |a| - 4 < ReadInt(a)
    ensures Drain(a).frames == [] && Drain(a).rest == a
    ensures Drain(a).failed ==> Drain(a + b) == Drained([], a + b, true)
  {
    if |a| >= 4 {
      ReadIntPrefix(a, b);
    }
  }

  /** A buffer with a whole frame at its front emits it and continues after it, whatever is appended. */
  lemma DrainStep(a: seq<byte>, b: seq<byte>)
    requires |a| >= 4 && 0 <= ReadInt(a) && ReadInt(a) <= |a| - 4
    ensures var n := ReadInt(a);
      && Drain(a) == Prepend([a[4..4 + n]], Drain(a[4 + n..]))
      && Drain(a + b) == Prepend([a[4..4 + n]], Drain(a[4 + n..] + b))
  {
    var n := ReadInt(a);
    ReadIntPrefix(a, b);
    assert (a + b)[4..4 + n] == a[4..4 + n];
    assert (a + b)[4 + n..] == a[4 + n..] + b;
  }

  /** Decoding a packet's bytes yields exactly its payload's bytes as one frame. */
  lemma DecodePacket(p: Payload, rest: seq<byte>)
    requires Fits(p)
    ensures var d := Drain(Encode(p) + rest);
      d.frames == [PayloadBytes(p)] + Drain(rest).frames && d.rest == Drain(rest).rest
  {
    var e := Encode(p);
    assert e == IntBytes(|PayloadBytes(p)|) + PayloadBytes(p);
    FrameThenRest(PayloadBytes(p), rest);
  }

  /** The incoming side of a connection: ReplayingPacketDecoder and its cumulation buffer. */
  class ReplayingPacketDecoder {
    /** Bytes received and not yet emitted as part of a frame. */
    var cumulation: seq<byte>

    constructor ()
      ensures cumulation == []
    {
      cumulation := [];
    }

    /**
     * channelRead(chunk): appends the chunk and runs decode while a whole
     * frame is buffered; returns the frames emitted and whether a header was
     * rejected. The unread bytes stay buffered.
     */
    method ChannelRead(chunk: seq<byte>) returns (frames: seq<seq<byte>>, failed: bool)
      modifies this
      ensures var d := Drain(old(cumulation) + chunk);
        frames == d.frames && failed == d.failed && cumulation == d.rest
    {
      var buf := cumulation + chunk;
      ghost var whole := buf;
      frames := [];
      failed := false;
      while true
        invariant !failed
        invariant Drain(whole) == Prepend(frames, Drain(buf))
        decreases |buf|
      {
        if |buf| < 4 {
          assert Drain(buf) == Drained([], buf, false);
          break;
        }
        var n := ReadInt(buf);
        if n < 0 {
          assert Drain(buf) == Drained([], buf, true);
          failed := true;
          break;
        }
        if |buf| - 4 < n {
          assert Drain(buf) == Drained([], buf, false);
          break;
        }
        var frame, next := buf[4..4 + n], buf[4 + n..];
        assert Drain(buf) == Prepend([frame], Drain(next));
        assert frames + [frame] + Drain(next).frames == frames + ([frame] + Drain(next).frames);
        frames := frames + [frame];
        buf := next;
      }
      assert frames + [] == frames;
      cumulation := buf;
    }
  }

  /**
   * A connection's successive reads fed to one decoder: the frames emitted
   * are those of the whole stream, however it was cut into chunks. Reading
   * stops at a rejected header, when the exception closes the connection.
   */
  method ReadAll(dec: ReplayingPacketDecoder, chunks: seq<seq<byte>>) returns (frames: seq<seq<byte>>, failed: bool)
    requires dec.cumulation == []
    modifies dec
    ensures !failed ==> frames == Drain(Concat(chunks)).frames && !Drain(Concat(chunks)).failed
    ensures failed ==> Drain(Concat(chunks)).failed
  {
    frames := [];
    failed := false;
    ghost var seen: seq<byte> := [];
    var i := 0;
    while i < |chunks| && !failed
      invariant 0 <= i <= |chunks|
      invariant seen == Concat(chunks[..i])
      invariant Drain(seen) == Drained(frames, dec.cumulation, failed)
      decreases |chunks| - i
    {
      DrainChunked(seen, chunks[i]);
      ConcatPrefixStep(chunks, i);
      var more, bad := dec.ChannelRead(chunks[i]);
      frames := frames + more;
      failed := bad;
      seen := seen + chunks[i];
      i := i + 1;
    }
    StreamOutcome(chunks, i, seen);
  }

  /** What the stream decodes to, from the decoding of its first i chunks. */
  lemma StreamOutcome(chunks: seq<seq<byte>>, i: nat, seen: seq<byte>)
    requires i <= |chunks| && seen == Concat(chunks[..i])
    requires i < |chunks| ==> Drain(seen).failed
    ensures !Drain(seen).failed ==> Drain(Concat(chunks)) == Drain(seen)
    ensures Drain(seen).failed ==> Drain(Concat(chunks)).failed
  {
    ConcatSplit(chunks, i);
    DrainChunked(seen, Concat(chunks[i..]));
    if i == |chunks| {
      assert chunks[..i] == chunks;
    }
  }

  lemma ConcatPrefixStep(chunks: seq<seq<byte>>, i: nat)
    requires i < |chunks|
    ensures Concat(chunks[..i + 1]) == Concat(chunks[..i]) + chunks[i]
  {
    ConcatSnoc(chunks[..i], chunks[i]);
    assert chunks[..i + 1] == chunks[..i] + [chunks[i]];
  }

  function Concat(chunks: seq<seq<byte>>): seq<byte>
  {
    if chunks == [] then [] else chunks[0] + Concat(chunks[1..])
  }

  lemma {:induction false} ConcatSnoc(chunks: seq<seq<byte>>, c: seq<byte>)
    ensures Concat(chunks + [c]) == Concat(chunks) + c
  {
    if chunks != [] {
      assert (chunks + [c])[1..] == chunks[1..] + [c];
      ConcatSnoc(chunks[1..], c);
    } else {
      assert chunks + [c] == [c];
    }
  }

  /**
   * PayloadDecoder on one frame: readCmd takes the tag byte, and the body is
   * every remaining byte, or null when none remain.
   */
  function DecodePayload(frame: seq<byte>): (r: Result<Payload, Exception>)
    ensures frame == [] ==> r == Err(Underflow)
    ensures frame != [] && frame[0] > 8 ==> r == Err(Runtime("Unknown cmd"))
    ensures r.Ok? <==> frame != [] && frame[0] <= 8
    ensures r.Ok? ==> Tag(r.value.cmd) == frame[0] && BodyBytes(r.value.body) == frame[1..]
    ensures r.Ok? ==> (r.value.body == None <==> |frame| == 1)
  {
    match ParseCmd(frame)
    case Err(e) => Err(e)
    case Ok(c) =>
      TagRoundTrip(Message, frame[0]);
      Ok(Payload(c.value, if |c.rest| > 0 then Some(c.rest) else None))
  }

  /** PayloadDecoder.decode: reads the tag, then the rest of the frame when any is left. */
  method DecodeFrame(msg: ByteCursor) returns (r: Result<Payload, Exception>)
    requires msg.Valid()
    modifies msg
    ensures r == DecodePayload(old(msg.Remaining()))
  {
    var cmd := ReadCmd(msg);
    if cmd.Err? {
      return Err(cmd.error);
    }
    var body: Option<seq<byte>> := None;
    if msg.HasRemaining() {
      var b := msg.GetAll();
      body := Some(b);
    }
    r := Ok(Payload(cmd.value, body));
  }

  /** The payload a decoder delivers for one sent: an empty body arrives as null. */
  function Received(p: Payload): (r: Payload)
    ensures r.cmd == p.cmd && BodyBytes(r.body) == BodyBytes(p.body)
    ensures r.body == None <==> BodyBytes(p.body) == []
  {
    if BodyBytes(p.body) == [] then Payload(p.cmd, None) else p
  }

  /** Decoding a payload's bytes gives it back, with an empty body turned into null. */
  lemma PayloadRoundTrip(p: Payload)
    ensures DecodePayload(PayloadBytes(p)) == Ok(Received(p))
  {
    TagRoundTrip(p.cmd, Tag(p.cmd));
  }

  /** Sending a payload over the wire, and decoding both layers, delivers `Received(p)`. */
  lemma EndToEnd(p: Payload, rest: seq<byte>)
    requires Fits(p)
    ensures var d := Drain(Encode(p) + rest);
      |d.frames| > 0 && d.frames[0] == PayloadBytes(p) && DecodePayload(d.frames[0]) == Ok(Received(p))
  {
    DecodePacket(p, rest);
    PayloadRoundTrip(p);
  }

  lemma {:induction false} ConcatSplit(chunks: seq<seq<byte>>, i: nat)
    requires i <= |chunks|
    ensures Concat(chunks) == Concat(chunks[..i]) + Concat(chunks[i..])
  {
    if i > 0 {
      ConcatSplit(chunks[1..], i - 1);
      assert chunks[1..][..i - 1] == chunks[..i][1..];
      assert chunks[1..][i - 1..] == chunks[i..];
    } else {
      assert chunks[..0] == [] && chunks[0..] == chunks;
    }
  }
}
