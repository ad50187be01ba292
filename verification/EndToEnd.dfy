/** A tunnel over an intact TCP stream: what Send puts in comes out of onReceive, byte for byte and in order. */
module EndToEnd {
  import opened Base
  import opened Noise
  import opened Fragmentation
  import opened Framing
  import opened Receiver
  import opened AppFrames

  const TAG_SIZE := 16

  /** The ciphertext is the plaintext's length plus the 16-byte tag. */
  ghost predicate Tagged(a: Aead<Bytes>) {
    forall k: Key, n: nat, p: Bytes :: |a.seal(k, n, p)| == |p| + TAG_SIZE
  }

  // ---- Sender ----

  function AllFrames(payloads: seq<Bytes>): seq<Frame> {
    if payloads == [] then [] else Fragments(payloads[0]) + AllFrames(payloads[1..])
  }

  /** The packets of consecutive successful sendAppFrame calls. */
  function SentPackets(a: Aead<Bytes>, c: Cipher, payloads: seq<Bytes>): seq<Bytes>
    decreases |payloads|
  {
    if payloads == [] then []
    else
      var fs := Fragments(payloads[0]);
      DataPackets(SealFrames(a, c, fs)) + SentPackets(a, Cipher(c.key, c.nonce + |fs|), payloads[1..])
  }

  lemma {:induction false} DataPacketsAppend(a: Aead<Bytes>, c: Cipher, xs: seq<Frame>, ys: seq<Frame>)
    ensures DataPackets(SealFrames(a, c, xs + ys)) ==
            DataPackets(SealFrames(a, c, xs)) + DataPackets(SealFrames(a, Cipher(c.key, c.nonce + |xs|), ys))
  {
    hide Build, Plain;
  }

  lemma {:induction false} SentPacketsFlat(a: Aead<Bytes>, c: Cipher, payloads: seq<Bytes>)
    ensures SentPackets(a, c, payloads) == DataPackets(SealFrames(a, c, AllFrames(payloads)))
    decreases |payloads|
  {
    hide Fragments, DataPackets, SealFrames;
    if payloads != [] {
      var fs := Fragments(payloads[0]);
      SentPacketsFlat(a, Cipher(c.key, c.nonce + |fs|), payloads[1..]);
      DataPacketsAppend(a, c, fs, AllFrames(payloads[1..]));
    } else {
      assert |DataPackets(SealFrames(a, c, AllFrames(payloads)))| == 0;
    }
  }

  lemma {:induction false} AllFramesBounded(payloads: seq<Bytes>)
    requires forall i :: 0 <= i < |payloads| ==> |payloads[i]| >= 1
    ensures forall i :: 0 <= i < |AllFrames(payloads)| ==> |AllFrames(payloads)[i].data| <= MAX_PAYLOAD
    decreases |payloads|
  {
    if payloads != [] {
      FragmentsShape(payloads[0]);
      AllFramesBounded(payloads[1..]);
    }
  }

  /**
    One sendAppFrame call makes ceil(len / MAX_PAYLOAD) packets, none larger than MAX_PAYLOAD plus header,
    frame-type byte and tag, so each fits the two-byte TCP length.
  */
  lemma {:induction false} PacketShape(a: Aead<Bytes>, c: Cipher, payload: Bytes)
    requires Tagged(a) && |payload| >= 1
    ensures var packets := DataPackets(SealFrames(a, c, Fragments(payload)));
            && |packets| == (|payload| + MAX_PAYLOAD - 1) / MAX_PAYLOAD
            && forall i :: 0 <= i < |packets| ==>
                 |packets[i]| <= 5 + 1 + MAX_PAYLOAD + TAG_SIZE && Sendable(packets[i])
  {
    FragmentsShape(payload);
    var cts := SealFrames(a, c, Fragments(payload));
    assert forall i :: 0 <= i < |cts| ==> |cts[i]| == 1 + |Fragments(payload)[i].data| + TAG_SIZE;
  }

  // ---- Receiver ----

  /** The data packets among the dispatched ones, run through the receive path. */
  function ReceiveAll(a: Aead<Bytes>, rx: Rx, packets: seq<Packet>): (Rx, seq<Bytes>)
    decreases |packets|
  {
    if packets == [] then (rx, [])
    else if packets[0].kind != PACKET_DATA then ReceiveAll(a, rx, packets[1..])
    else
      var (rx1, outcome) := Receive(a, rx, packets[0].payload);
      var (rx2, later) := ReceiveAll(a, rx1, packets[1..]);
      (rx2, PayloadsOf(outcome) + later)
  }

  function AsData(cts: seq<Bytes>): (r: seq<Packet>)
    ensures |r| == |cts|
  {
    seq(|cts|, i requires 0 <= i < |cts| => Packet(PACKET_DATA, cts[i]))
  }

  lemma {:induction false} PacketsOfDataPackets(cts: seq<Bytes>)
    ensures Packets(DataPackets(cts)) == AsData(cts)
    decreases |cts|
  {
    if cts != [] {
      ParseBuild(Packet(PACKET_DATA, cts[0]));
      assert DataPackets(cts)[1..] == DataPackets(cts[1..]);
      PacketsOfDataPackets(cts[1..]);
      assert AsData(cts) == [Packet(PACKET_DATA, cts[0])] + AsData(cts[1..]);
    }
  }

  predicate InSync(rx: Rx, c: Cipher) {
    rx.session.Some? && rx.session.value.recv == Some(c)
  }

  /** In sync, frames sealed in order are opened in order. */
  lemma {:induction false} ReceiveSealed(a: Aead<Bytes>, rx: Rx, c: Cipher, fs: seq<Frame>)
    requires Correct(a) && InSync(rx, c)
    ensures var (rx', payloads) := ReceiveAll(a, rx, AsData(SealFrames(a, c, fs)));
            && InSync(rx', Cipher(c.key, c.nonce + |fs|))
            && rx'.buffer == BufferAfter(rx.buffer, fs)
            && payloads == Completed(rx.buffer, fs)
    decreases |fs|
  {
    if fs != [] {
      var cts := SealFrames(a, c, fs);
      var rx1 := Receive(a, rx, cts[0]).0;
      OnPlaintextOfFrame(rx.buffer, fs[0]);
      assert a.open(c.key, c.nonce, cts[0]) == Some(Plain(fs[0]));
      assert cts[1..] == SealFrames(a, Advance(c), fs[1..]);
      assert AsData(cts)[1..] == AsData(cts[1..]);
      ReceiveSealed(a, rx1, Advance(c), fs[1..]);
    }
  }

  lemma {:induction false} CompletedAll(buffer: Option<Bytes>, payloads: seq<Bytes>)
    ensures Completed(buffer, AllFrames(payloads)) == OnlyDeliverable(payloads)
    ensures payloads != [] ==> BufferAfter(buffer, AllFrames(payloads)) == None
    decreases |payloads|
  {
    if payloads != [] {
      FragmentRoundTrip(buffer, payloads[0]);
      FeedAppend(buffer, Fragments(payloads[0]), AllFrames(payloads[1..]));
      CompletedAll(None, payloads[1..]);
    }
  }

  lemma {:induction false} AllSendable(a: Aead<Bytes>, c: Cipher, fs: seq<Frame>)
    requires Tagged(a) && forall i :: 0 <= i < |fs| ==> |fs[i].data| <= MAX_PAYLOAD
    ensures var packets := DataPackets(SealFrames(a, c, fs));
            forall i :: 0 <= i < |packets| ==> Sendable(packets[i])
  {
    var cts := SealFrames(a, c, fs);
    forall i | 0 <= i < |cts|
      ensures Sendable(DataPackets(cts)[i])
    {
      assert |cts[i]| == 1 + |fs[i].data| + TAG_SIZE;
    }
  }

  /**
    Every list of payloads sent on a session comes out of the other end of an intact stream as the same list
    without the ones over the reassembly limit, from whatever was left in the receiver's buffer; the two
    ends stay in step and the buffer ends empty.
  */
  lemma {:induction false} PayloadsAcrossStream(a: Aead<Bytes>, c: Cipher, rx: Rx, payloads: seq<Bytes>)
    requires Correct(a) && Tagged(a) && InSync(rx, c)
    requires forall i :: 0 <= i < |payloads| ==> |payloads[i]| >= 1
    ensures var stream := Stream(SentPackets(a, c, payloads));
            var (rx', out) := ReceiveAll(a, rx, Packets(Frames(stream)));
            && out == OnlyDeliverable(payloads)
            && InSync(rx', Cipher(c.key, c.nonce + |AllFrames(payloads)|))
            && (payloads != [] ==> rx'.buffer == None)
  {
    hide Frames, Packets, ReceiveAll, DataPackets, SealFrames, Sendable, AllFrames, Completed, BufferAfter;
    var fs := AllFrames(payloads);
    var cts := SealFrames(a, c, fs);
    SentPacketsFlat(a, c, payloads);
    AllFramesBounded(payloads);
    AllSendable(a, c, fs);
    FramingRoundTrip(DataPackets(cts));
    PacketsOfDataPackets(cts);
    ReceiveSealed(a, rx, c, fs);
    CompletedAll(rx.buffer, payloads);
  }

  // ---- Send and onReceive ----

  datatype Call = Call(channel: string, data: Bytes)

  function UserPayload(hash: string -> Bytes, call: Call): Bytes {
    [APP_USER] + (hash(call.channel) + call.data)
  }

  /** The payloads of the calls that get past the sender's own subscription check. */
  function Accepted(hash: string -> Bytes, senderIndex: set<Bytes>, calls: seq<Call>): seq<Bytes> {
    if calls == [] then []
    else
      (if hash(calls[0].channel) in senderIndex then [UserPayload(hash, calls[0])] else [])
      + Accepted(hash, senderIndex, calls[1..])
  }

  predicate Visible(hash: string -> Bytes, senderIndex: set<Bytes>, receiverIndex: set<Bytes>, call: Call) {
    && hash(call.channel) in senderIndex
    && hash(call.channel) in receiverIndex
    && 1 + HASH_SIZE + |call.data| <= MAX_REASSEMBLY
  }

  /** What the receiver's application should see. */
  function Expected(hash: string -> Bytes, senderIndex: set<Bytes>, receiverIndex: set<Bytes>,
                    calls: seq<Call>): seq<Bytes> {
    if calls == [] then []
    else
      (if Visible(hash, senderIndex, receiverIndex, calls[0]) then [calls[0].data] else [])
      + Expected(hash, senderIndex, receiverIndex, calls[1..])
  }

  lemma {:induction false} UserPayloadReceived(hash: string -> Bytes, index: set<Bytes>, call: Call)
    requires |hash(call.channel)| == HASH_SIZE
    ensures OnAppFrame(index, UserPayload(hash, call)) ==
            if hash(call.channel) in index then Received(call.data) else Ignored
  {
    var payload := UserPayload(hash, call)[1..];
    assert payload == hash(call.channel) + call.data;
    assert payload[..HASH_SIZE] == hash(call.channel) && payload[HASH_SIZE..] == call.data;
  }

  lemma {:induction false} ReceivedIsExpected(hash: string -> Bytes, senderIndex: set<Bytes>, receiverIndex: set<Bytes>,
                                              calls: seq<Call>)
    requires forall i :: 0 <= i < |calls| ==> |hash(calls[i].channel)| == HASH_SIZE
    ensures ReceivedFrom(receiverIndex, OnlyDeliverable(Accepted(hash, senderIndex, calls)))
            == Expected(hash, senderIndex, receiverIndex, calls)
    decreases |calls|
  {
    if calls != [] {
      var p := UserPayload(hash, calls[0]);
      var rest := Accepted(hash, senderIndex, calls[1..]);
      ReceivedIsExpected(hash, senderIndex, receiverIndex, calls[1..]);
      UserPayloadReceived(hash, receiverIndex, calls[0]);
      if hash(calls[0].channel) in senderIndex {
        assert ([p] + rest)[1..] == rest;
        if Deliverable(p) {
          assert ([p] + OnlyDeliverable(rest))[1..] == OnlyDeliverable(rest);
        } else {
          assert [] + OnlyDeliverable(rest) == OnlyDeliverable(rest);
        }
      } else {
        assert [] + rest == rest;
      }
    }
  }

  lemma {:induction false} AcceptedNonEmpty(hash: string -> Bytes, senderIndex: set<Bytes>, calls: seq<Call>)
    ensures forall i :: 0 <= i < |Accepted(hash, senderIndex, calls)| ==> |Accepted(hash, senderIndex, calls)[i]| >= 1
    decreases |calls|
  {
    if calls != [] {
      AcceptedNonEmpty(hash, senderIndex, calls[1..]);
    }
  }

  /**
    End to end. For every list of Send calls on one session over an intact TCP stream, the receiver's onReceive
    trace is exactly the sent data, in order, restricted to channels both ends subscribe to and to messages
    within the reassembly limit.
  */
  lemma {:induction false} SendReachesOnReceive(a: Aead<Bytes>, hash: string -> Bytes, c: Cipher, rx: Rx,
                                                senderIndex: set<Bytes>, receiverIndex: set<Bytes>, calls: seq<Call>)
    requires Correct(a) && Tagged(a) && InSync(rx, c)
    requires forall i :: 0 <= i < |calls| ==> |hash(calls[i].channel)| == HASH_SIZE
    ensures var stream := Stream(SentPackets(a, c, Accepted(hash, senderIndex, calls)));
            ReceivedFrom(receiverIndex, ReceiveAll(a, rx, Packets(Frames(stream))).1)
            == Expected(hash, senderIndex, receiverIndex, calls)
  {
    var payloads := Accepted(hash, senderIndex, calls);
    AcceptedNonEmpty(hash, senderIndex, calls);
    PayloadsAcrossStream(a, c, rx, payloads);
    ReceivedIsExpected(hash, senderIndex, receiverIndex, calls);
  }
}
