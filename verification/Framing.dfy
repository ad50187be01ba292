/** Packet headers and TCP framing: internal/protocol/protocol.go and the read loop of node/tcp_io.go. */
module Framing {
  import opened Base

  /** "TENT" */
  const MAGIC: Bytes := [0x54, 0x45, 0x4E, 0x54]

  const PACKET_DATA: byte := 2
  const PACKET_RELAY: byte := 3

  datatype Packet = Packet(kind: byte, payload: Bytes)

  /** Magic, type byte, payload. */
  function Build(p: Packet): (r: Bytes)
    ensures |r| == 5 + |p.payload|
  {
    MAGIC + [p.kind] + p.payload
  }

  /** What the receivers accept as a packet; None is silently skipped. */
  function Parse(frame: Bytes): Option<Packet> {
    if |frame| < 5 || frame[..4] != MAGIC then None else Some(Packet(frame[4], frame[5..]))
  }

  lemma {:induction false} ParseBuild(p: Packet)
    ensures Parse(Build(p)) == Some(p)
  {
    assert Build(p)[..4] == MAGIC;
    assert Build(p)[5..] == p.payload;
  }

  /** A frame is taken as a packet exactly when it is one that was built. */
  lemma {:induction false} ParseExactly(frame: Bytes, p: Packet)
    ensures Parse(frame) == Some(p) <==> frame == Build(p)
  {
    ParseBuild(p);
    if Parse(frame) == Some(p) {
      assert frame == frame[..4] + [frame[4]] + frame[5..];
    }
  }

  /** Two length bytes (the length cast to uint16), then the packet. */
  function EncodeFrame(packet: Bytes): (r: Bytes)
    ensures |r| == 2 + |packet|
  {
    [|packet| / 256 % 256, |packet| % 256] + packet
  }

  /** The byte stream after sending a list of packets. */
  function Stream(packets: seq<Bytes>): Bytes {
    if packets == [] then [] else EncodeFrame(packets[0]) + Stream(packets[1..])
  }

  function FrameLength(header: Bytes): (n: nat)
    requires |header| >= 2
    ensures n < 65536
  {
    (header[0] as int) * 256 + header[1] as int
  }

  /** The frames cut from a stream: up to the first zero length or the first frame the stream ends in. */
  function Frames(stream: Bytes): (r: seq<Bytes>)
    ensures forall i :: 0 <= i < |r| ==> 1 <= |r[i]| <= 65535
    decreases |stream|
  {
    if |stream| < 2 then []
    else
      var n := FrameLength(stream);
      if n == 0 || |stream| < 2 + n then [] else [stream[2..2 + n]] + Frames(stream[2 + n..])
  }

  predicate Sendable(packet: Bytes) {
    1 <= |packet| <= 65535
  }

  lemma {:induction false} LengthRoundTrip(n: nat)
    requires n < 65536
    ensures FrameLength([n / 256 % 256, n % 256]) == n
  {
  }

  lemma {:induction false} FramesOfEncoded(p: Bytes, rest: Bytes)
    requires Sendable(p)
    ensures Frames(EncodeFrame(p) + rest) == [p] + Frames(rest)
  {
    var n, s := |p|, EncodeFrame(p) + rest;
    LengthRoundTrip(n);
    assert FrameLength(s) == n;
    assert s[2..2 + n] == p;
    assert s[2 + n..] == rest;
  }

  lemma {:induction false} FramesOfStreamThen(packets: seq<Bytes>, rest: Bytes)
    requires forall i :: 0 <= i < |packets| ==> Sendable(packets[i])
    ensures Frames(Stream(packets) + rest) == packets + Frames(rest)
    decreases |packets|
  {
    if packets == [] {
      assert Stream(packets) + rest == rest;
    } else {
      assert Stream(packets) + rest == EncodeFrame(packets[0]) + (Stream(packets[1..]) + rest);
      FramesOfEncoded(packets[0], Stream(packets[1..]) + rest);
      FramesOfStreamThen(packets[1..], rest);
    }
  }

  /** A list of packets survives the stream exactly when every packet has 1 to 65535 bytes. */
  lemma {:induction false} FramingRoundTrip(packets: seq<Bytes>)
    ensures Frames(Stream(packets)) == packets <==> forall i :: 0 <= i < |packets| ==> Sendable(packets[i])
  {
    if forall i :: 0 <= i < |packets| ==> Sendable(packets[i]) {
      FramesOfStreamThen(packets, []);
      assert Stream(packets) + [] == Stream(packets);
    }
  }

  lemma {:induction false} FirstFrame(stream: Bytes)
    requires |stream| >= 2 && FrameLength(stream) > 0 && |stream| >= 2 + FrameLength(stream)
    ensures var n := FrameLength(stream);
            var frame, later := stream[2..2 + n], stream[2 + n..];
            && stream == EncodeFrame(frame) + later
            && Frames(stream) == [frame] + Frames(later)
  {
    var n := FrameLength(stream);
    assert EncodeFrame(stream[2..2 + n]) == stream[..2 + n];
    assert stream == stream[..2 + n] + stream[2 + n..];
  }

  lemma {:induction false} StreamCons(packet: Bytes, packets: seq<Bytes>)
    ensures Stream([packet] + packets) == EncodeFrame(packet) + Stream(packets)
  {
    hide EncodeFrame;
    assert ([packet] + packets)[1..] == packets;
  }

  /**
    On arbitrary bytes the frames re-encode to a prefix of the stream, and reading stops only where the rest
    starts with length zero or ends inside a frame.
  */
  lemma {:induction false} FramesArePrefix(stream: Bytes) returns (rest: Bytes)
    ensures stream == Stream(Frames(stream)) + rest
    ensures |rest| < 2 || FrameLength(rest) == 0 || |rest| < 2 + FrameLength(rest)
    decreases |stream|
  {
    if |stream| < 2 || FrameLength(stream) == 0 || |stream| < 2 + FrameLength(stream) {
      rest := stream;
    } else {
      hide EncodeFrame, Frames, Stream;
      var n := FrameLength(stream);
      var frame, later := stream[2..2 + n], stream[2 + n..];
      rest := FramesArePrefix(later);
      FirstFrame(stream);
      StreamCons(frame, Frames(later));
      assert stream == EncodeFrame(frame) + (Stream(Frames(later)) + rest);
    }
  }

  /** The packets handed to handlePacket, in order. */
  function Packets(frames: seq<Bytes>): seq<Packet> {
    if frames == [] then []
    else
      var rest := Packets(frames[1..]);
      match Parse(frames[0])
      case None => rest
      case Some(p) => [p] + rest
  }

  lemma {:induction false} PacketsStep(stream: Bytes, n: nat)
    requires |stream| >= 2 + n && n == FrameLength(stream) > 0
    ensures var frame, rest := stream[2..2 + n], Packets(Frames(stream[2 + n..]));
            Packets(Frames(stream)) == match Parse(frame) case None => rest case Some(p) => [p] + rest
  {
    var frame, frames := stream[2..2 + n], Frames(stream[2 + n..]);
    assert Frames(stream) == [frame] + frames;
    assert ([frame] + frames)[1..] == frames;
  }

  /**
    The TCP reader on the bytes a connection yields before it ends: read a header, stop on length zero,
    read the frame, skip it unless it is a TENT packet, dispatch it.
  */
  method HandleTCP(stream: Bytes) returns (dispatched: seq<Packet>)
    ensures dispatched == Packets(Frames(stream))
  {
    dispatched := [];
    var unread := stream;
    while |unread| >= 2
      invariant Packets(Frames(stream)) == dispatched + Packets(Frames(unread))
      decreases |unread|
    {
      var length := FrameLength(unread);
      if length == 0 || |unread| - 2 < length {
        return;
      }
      var buf := unread[2..2 + length];
      PacketsStep(unread, length);
      unread := unread[2 + length..];
      if length < 5 || buf[..4] != MAGIC {
        continue;
      }
      dispatched := dispatched + [Packet(buf[4], buf[5..])];
    }
  }
}
