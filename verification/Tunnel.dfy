/**
  Two nodes and the TCP stream between them: Send at one end (node/node_channel.go), the framed packets, the
  reader (node/tcp_io.go) and processData (node/data_flow.go) at the other.
*/
module Tunnel {
  import opened Base
  import opened Noise
  import opened Fragmentation
  import opened Framing
  import opened Receiver
  import opened AppFrames
  import opened Recovery
  import opened Peers
  import opened Nodes
  import opened EndToEnd

  lemma {:induction false} StreamAppend(xs: seq<Bytes>, ys: seq<Bytes>)
    ensures Stream(xs + ys) == Stream(xs) + Stream(ys)
  {
    if xs == [] {
      assert xs + ys == ys;
    } else {
      assert (xs + ys)[1..] == xs[1..] + ys;
      StreamAppend(xs[1..], ys);
    }
  }

  /** The packets of a call go out framed, one after the other. */
  method WritePackets(before: Bytes, packets: seq<Bytes>) returns (stream: Bytes)
    ensures stream == before + Stream(packets)
  {
    stream := before;
    for i := 0 to |packets|
      invariant stream == before + Stream(packets[..i])
    {
      StreamAppend(packets[..i], [packets[i]]);
      assert packets[..i + 1] == packets[..i] + [packets[i]];
      assert Stream([packets[i]]) == EncodeFrame(packets[i]);
      stream := stream + EncodeFrame(packets[i]);
    }
    assert packets[..|packets|] == packets;
  }

  /** What one call adds to the stream. */
  lemma {:induction false} CallSent(a: Aead<Bytes>, hash: string -> Bytes, index: set<Bytes>, c: Cipher,
                                    calls: seq<Call>)
    requires calls != []
    ensures var all := Stream(SentPackets(a, c, Accepted(hash, index, calls)));
            var rest := Accepted(hash, index, calls[1..]);
            if hash(calls[0].channel) in index then
              var fs := Fragments(UserPayload(hash, calls[0]));
              all == Stream(DataPackets(SealFrames(a, c, fs)))
                     + Stream(SentPackets(a, Cipher(c.key, c.nonce + |fs|), rest))
            else all == Stream(SentPackets(a, c, rest))
  {
    hide Fragments, SealFrames, DataPackets, Stream, UserPayload;
    var rest := Accepted(hash, index, calls[1..]);
    if hash(calls[0].channel) in index {
      var p := UserPayload(hash, calls[0]);
      var fs := Fragments(p);
      assert ([p] + rest)[1..] == rest;
      StreamAppend(DataPackets(SealFrames(a, c, fs)), SentPackets(a, Cipher(c.key, c.nonce + |fs|), rest));
    } else {
      assert [] + rest == rest;
    }
  }

  lemma {:induction false} FewFrames(payload: Bytes)
    requires |payload| >= 1
    ensures |Fragments(payload)| <= |payload|
  {
    FragmentsShape(payload);
  }

  /** One Send call over a connection that takes every write. */
  method SendOne(node: Node, a: Aead<Bytes>, p: Peer, call: Call) returns (written: seq<Bytes>)
    requires p.session != null && p.session.sendCipher.Some? && |node.hash(call.channel)| == HASH_SIZE
    modifies p.session
    ensures p.session == old(p.session)
    ensures var c, fs := old(p.session.sendCipher.value), Fragments(UserPayload(node.hash, call));
            if node.hash(call.channel) in node.localChannelSet then
              && written == DataPackets(SealFrames(a, c, fs))
              && p.session.sendCipher == Some(Cipher(c.key, c.nonce + |fs|))
            else written == [] && p.session.sendCipher == Some(c)
  {
    hide Fragments, SealFrames, DataPackets;
    ghost var c := p.session.sendCipher.value;
    ghost var all := DataPackets(SealFrames(a, c, Fragments(UserPayload(node.hash, call))));
    FewFrames(UserPayload(node.hash, call));
    assert all[..|all|] == all;
    var ok;
    written, ok := node.Send(a, p, call.channel, call.data, 1 + HASH_SIZE + |call.data|);
  }

  /** A list of Send calls. */
  method SendAll(node: Node, a: Aead<Bytes>, p: Peer, calls: seq<Call>) returns (stream: Bytes)
    requires p.session != null && p.session.sendCipher.Some?
    requires forall i :: 0 <= i < |calls| ==> |node.hash(calls[i].channel)| == HASH_SIZE
    modifies p.session
    ensures p.session == old(p.session)
    ensures var payloads := Accepted(node.hash, node.localChannelSet, calls);
            stream == Stream(SentPackets(a, old(p.session.sendCipher.value), payloads))
  {
    hide Fragments, SealFrames, DataPackets, SentPackets, Accepted, Stream, UserPayload;
    ghost var hash, index := node.hash, node.localChannelSet;
    ghost var c := p.session.sendCipher.value;
    ghost var all := Stream(SentPackets(a, c, Accepted(hash, index, calls)));
    stream := [];
    assert calls[0..] == calls;
    for i := 0 to |calls|
      invariant p.session == old(p.session) && p.session.sendCipher == Some(c)
      invariant all == stream + Stream(SentPackets(a, c, Accepted(hash, index, calls[i..])))
    {
      assert calls[i..][1..] == calls[i + 1..];
      CallSent(a, hash, index, c, calls[i..]);
      EmptyStream();
      var written := SendOne(node, a, p, calls[i]);
      stream := WritePackets(stream, written);
      c := p.session.sendCipher.value;
    }
    NothingLeft(a, c, hash, index, calls[|calls|..]);
  }

  lemma {:induction false} EmptyStream()
    ensures Stream([]) == []
  {
  }

  lemma {:induction false} NothingLeft(a: Aead<Bytes>, c: Cipher, hash: string -> Bytes, index: set<Bytes>,
                                       calls: seq<Call>)
    requires calls == []
    ensures Stream(SentPackets(a, c, Accepted(hash, index, calls))) == []
  {
  }

  /** One dispatched packet against the receive path: the payloads it completes. */
  function ReceiveOne(a: Aead<Bytes>, rx: Rx, packet: Packet): (Rx, seq<Bytes>) {
    if packet.kind != PACKET_DATA then (rx, [])
    else
      var (rx', outcome) := Receive(a, rx, packet.payload);
      (rx', PayloadsOf(outcome))
  }

  lemma {:induction false} ReceiveFirst(a: Aead<Bytes>, rx: Rx, packets: seq<Packet>)
    ensures packets == [] ==> ReceiveAll(a, rx, packets) == (rx, [])
    ensures packets != [] ==>
              var (rx1, got) := ReceiveOne(a, rx, packets[0]);
              var (rx2, later) := ReceiveAll(a, rx1, packets[1..]);
              ReceiveAll(a, rx, packets) == (rx2, got + later)
  {
    hide Receive;
    if packets != [] && packets[0].kind != PACKET_DATA {
      var later := ReceiveAll(a, rx, packets[1..]).1;
      assert [] + later == later;
    }
  }

  /** handlePacket as far as data goes. */
  method Dispatch(node: Node, a: Aead<Bytes>, p: Peer, packet: Packet, now: int) returns (ghost got: seq<Bytes>)
    modifies node`received, node`channelUpdates, p, p.session
    ensures p.session == old(p.session)
    ensures (p.RxView(), got) == ReceiveOne(a, old(p.RxView()), packet)
    ensures node.received == old(node.received) + ReceivedFrom(node.localChannelSet, got)
  {
    hide Receive, OnDecryptFailure;
    got := [];
    if packet.kind == PACKET_DATA {
      var outcome, verdict := node.ProcessData(a, p, packet.payload, now);
      got := PayloadsOf(outcome);
    }
  }

  /** The reader and the data handler on what a connection yields. */
  method ReceiveStream(node: Node, a: Aead<Bytes>, p: Peer, stream: Bytes, now: int)
    modifies node`received, node`channelUpdates, p, p.session
    ensures p.session == old(p.session)
    ensures p.RxView() == ReceiveAll(a, old(p.RxView()), Packets(Frames(stream))).0
    ensures node.received == old(node.received)
              + ReceivedFrom(node.localChannelSet, ReceiveAll(a, old(p.RxView()), Packets(Frames(stream))).1)
  {
    hide ReceivedFrom, ReceiveAll, ReceiveOne, Packets, Frames;
    var packets := HandleTCP(stream);
    ghost var done: seq<Bytes> := [];
    ghost var rx := p.RxView();
    ghost var all := ReceiveAll(a, rx, packets);
    NothingReceived(node.localChannelSet);
    assert packets[0..] == packets;
    for i := 0 to |packets|
      invariant p.session == old(p.session) && p.RxView() == rx
      invariant ReceiveAll(a, rx, packets[i..]).0 == all.0
      invariant done + ReceiveAll(a, rx, packets[i..]).1 == all.1
      invariant node.received == old(node.received) + ReceivedFrom(node.localChannelSet, done)
    {
      assert packets[i..][1..] == packets[i + 1..];
      ReceiveFirst(a, rx, packets[i..]);
      ghost var got := Dispatch(node, a, p, packets[i], now);
      ReceivedFromAppend(node.localChannelSet, done, got);
      done, rx := done + got, p.RxView();
    }
    ReceiveFirst(a, rx, packets[|packets|..]);
    assert done + [] == done;
  }

  /**
    End to end on the nodes themselves. Whatever the two ends subscribe to and whatever calls are made, after the
    stream has been read the receiver's application has seen exactly the sent data, in order, on the channels
    both subscribe to and within the reassembly limit.
  */
  method Transfer(sender: Node, receiver: Node, a: Aead<Bytes>, toReceiver: Peer, toSender: Peer, calls: seq<Call>,
                  now: int)
    requires Correct(a) && Tagged(a)
    requires toReceiver != toSender && toReceiver.session != toSender.session
    requires toReceiver.session != null && toReceiver.session.sendCipher.Some?
    requires InSync(toSender.RxView(), toReceiver.session.sendCipher.value)
    requires forall i :: 0 <= i < |calls| ==> |sender.hash(calls[i].channel)| == HASH_SIZE
    modifies toReceiver.session, receiver`received, receiver`channelUpdates, toSender, toSender.session
    ensures receiver.received == old(receiver.received)
              + Expected(sender.hash, sender.localChannelSet, receiver.localChannelSet, calls)
  {
    hide Stream, SentPackets, Accepted, Expected, Packets, Frames, ReceiveAll, ReceivedFrom;
    ghost var c, rx := toReceiver.session.sendCipher.value, toSender.RxView();
    var stream := SendAll(sender, a, toReceiver, calls);
    ReceiveStream(receiver, a, toSender, stream, now);
    SendReachesOnReceive(a, sender.hash, c, rx, sender.localChannelSet, receiver.localChannelSet, calls);
  }
}
