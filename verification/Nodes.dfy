/**
  The data path of a node as the source runs it: subscriptions (node/node_channel.go), the fragmentation loop
  of sendAppFrame, processData (node/data_flow.go) and triggerFastRehandshake (node/rehandshake.go).
*/
module Nodes {
  import opened Base
  import opened Noise
  import opened Fragmentation
  import opened Framing
  import opened Receiver
  import opened Recovery
  import opened Peers
  import opened AppFrames
  import opened Channels

  class Node {
    const config: Config
    const hash: string -> Bytes
    var channels: seq<string>
    var localChannelSet: set<Bytes>
    var received: seq<Bytes>          // data passed to onReceive so far
    var channelUpdates: seq<Bytes>    // payloads passed to processChannelUpdate so far

    function Subscriptions(): Subs
      reads this
    {
      Subs(channels, localChannelSet)
    }

    constructor (config: Config, hash: string -> Bytes, names: seq<string>)
      ensures this.config == config && this.hash == hash
      ensures Subscriptions() == Construct(hash, names)
      ensures received == [] && channelUpdates == []
    {
      this.config, this.hash, received, channelUpdates := config, hash, [], [];
      var chosen: seq<string> := [];
      for i := 0 to |names|
        invariant chosen == AddNames(names[..i])
      {
        assert names[..i + 1][..i] == names[..i];
        if names[i] !in chosen {
          chosen := chosen + [names[i]];
        }
      }
      assert names[..|names|] == names;
      var index: set<Bytes> := {};
      for i := 0 to |chosen|
        invariant index == Hashes(hash, chosen[..i])
      {
        assert chosen[..i + 1] == chosen[..i] + [chosen[i]];
        index := index + {hash(chosen[i])};
      }
      assert chosen[..|chosen|] == chosen;
      channels, localChannelSet := chosen, index;
    }

    method JoinChannel(name: string) returns (announced: bool)
      modifies this`channels, this`localChannelSet
      ensures Subscriptions() == Apply(hash, old(Subscriptions()), Join(name))
      ensures announced == (name !in old(channels))
    {
      for i := 0 to |channels|
        invariant name !in channels[..i]
      {
        if channels[i] == name {
          return false;
        }
      }
      channels := channels + [name];
      localChannelSet := localChannelSet + {hash(name)};
      return true;
    }

    method LeaveChannel(name: string) returns (found: bool)
      modifies this`channels, this`localChannelSet
      ensures Subscriptions() == Apply(hash, old(Subscriptions()), Leave(name))
      ensures found == (name in old(channels))
    {
      found := false;
      for i := 0 to |channels|
        invariant name !in channels[..i]
      {
        if channels[i] == name {
          channels := channels[..i] + channels[i + 1..];
          localChannelSet := localChannelSet - {hash(name)};
          return true;
        }
      }
    }

    method IsChannelSubscribed(channelHash: Bytes) returns (subscribed: bool)
      ensures subscribed == (|channelHash| == HASH_SIZE && channelHash in localChannelSet)
    {
      if |channelHash| != HASH_SIZE {
        return false;
      }
      return channelHash in localChannelSet;
    }

    method HandleAppFrame(data: Bytes)
      modifies this`received, this`channelUpdates
      ensures var e := OnAppFrame(localChannelSet, data);
              && received == old(received) + UserData(e)
              && channelUpdates == old(channelUpdates) + Updates(e)
    {
      if |data| < 1 {
        return;
      }
      var appFrameType, payload := data[0], data[1..];
      if appFrameType == APP_USER {
        if |payload| < HASH_SIZE {
          return;
        }
        var channelHash, userData := payload[..HASH_SIZE], payload[HASH_SIZE..];
        var subscribed := IsChannelSubscribed(channelHash);
        if subscribed {
          received := received + [userData];
        }
      } else if appFrameType == APP_CHANNEL_UPDATE {
        channelUpdates := channelUpdates + [payload];
      }
    }

    /** What sending a payload writes and leaves of the session, with room for okWrites packets. */
    static predicate SentAs(a: Aead<Bytes>, before: Option<SessionState>, payload: Bytes, okWrites: nat,
                            written: seq<Bytes>, ok: bool, after: Option<SessionState>)
    {
      if before.None? || before.value.send.None? then !ok && written == [] && after == before
      else
        var s, c, fs := before.value, before.value.send.value, Fragments(payload);
        && ok == (okWrites >= |fs|)
        && written == DataPackets(SealFrames(a, c, fs))[..Min(okWrites, |fs|)]
        && after == Some(s.(send := Some(Cipher(c.key, c.nonce + Min(okWrites + 1, |fs|)))))
    }

    /**
      Sends one application frame. `okWrites` is how many writes the transport accepts before one fails.
      Every frame is encrypted before it is written, so a failed write still costs a nonce.
    */
    method SendAppFrame(a: Aead<Bytes>, p: Peer, appFrameType: byte, data: Bytes, okWrites: nat)
      returns (written: seq<Bytes>, ok: bool)
      modifies p.session
      ensures p.session == old(p.session)
      ensures SentAs(a, old(p.SessionView()), [appFrameType] + data, okWrites, written, ok, p.SessionView())
    {
      written, ok := [], false;
      var session := p.session;
      if session == null {
        return;
      }
      var payload := [appFrameType] + data;
      ghost var fs := Fragments(payload);
      if session.sendCipher.None? {
        return;
      }
      ghost var s := session.State();
      ghost var c := session.sendCipher.value;
      ghost var all := DataPackets(SealFrames(a, c, fs));
      if |payload| <= MAX_PAYLOAD {
        written, ok := SendFrame(a, session, FRAME_SINGLE, payload, written, okWrites, all, s, c);
        return;
      }
      written, ok := SendFrame(a, session, FRAME_FIRST, payload[..MAX_PAYLOAD], written, okWrites, all, s, c);
      if !ok {
        return;
      }
      written, ok := SendTail(a, session, payload, written, okWrites, fs, all, s, c);
    }

    /** The loop over the frames after the first. */
    method SendTail(a: Aead<Bytes>, session: Session, payload: Bytes, before: seq<Bytes>, okWrites: nat,
                    ghost fs: seq<Frame>, ghost all: seq<Bytes>, ghost s: SessionState, ghost c: Cipher)
      returns (written: seq<Bytes>, ok: bool)
      requires |payload| > MAX_PAYLOAD && |before| == 1 <= okWrites && Progress(session, before, all, s, c)
      requires |fs| > 1 && fs[1..] == TailFragments(payload[MAX_PAYLOAD..]) && all == DataPackets(SealFrames(a, c, fs))
      modifies session
      ensures ok == (okWrites >= |fs|)
      ensures written == all[..Min(okWrites, |fs|)]
      ensures session.State() == s.(send := Some(Cipher(c.key, c.nonce + Min(okWrites + 1, |fs|))))
    {
      hide DataPackets, SealFrames, Build, Plain, TailFragments;
      written := before;
      var offset := MAX_PAYLOAD;
      while |payload| - offset > MAX_PAYLOAD
        invariant 0 <= offset <= |payload|
        invariant 1 <= |written| < |fs| && |written| <= okWrites
        invariant fs[|written|..] == TailFragments(payload[offset..])
        invariant Progress(session, written, all, s, c)
        decreases |payload| - offset
      {
        TailStep(payload, offset, fs, |written|);
        DataPacketAt(a, c, fs, |written|);
        written, ok := SendFrame(a, session, FRAME_MIDDLE, payload[offset..offset + MAX_PAYLOAD],
                                 written, okWrites, all, s, c);
        if !ok {
          return;
        }
        offset := offset + MAX_PAYLOAD;
      }
      TailStep(payload, offset, fs, |written|);
      DataPacketAt(a, c, fs, |written|);
      written, ok := SendFrame(a, session, FRAME_LAST, payload[offset..], written, okWrites, all, s, c);
    }

    /** The packets written so far are the first ones of all, and as many nonces are used up. */
    ghost predicate Progress(session: Session, written: seq<Bytes>, all: seq<Bytes>, s: SessionState, c: Cipher)
      reads session
    {
      && written <= all
      && session.State() == s.(send := Some(Cipher(c.key, c.nonce + |written|)))
    }

    /** Encrypt, wrap, write. */
    method SendFrame(a: Aead<Bytes>, session: Session, frameType: byte, fragment: Bytes, before: seq<Bytes>,
                     okWrites: nat,
                     ghost all: seq<Bytes>, ghost s: SessionState, ghost c: Cipher)
      returns (written: seq<Bytes>, ok: bool)
      requires Progress(session, before, all, s, c) && |before| < |all| && |before| <= okWrites
      requires all[|before|] == Build(Packet(PACKET_DATA, a.seal(c.key, c.nonce + |before|,
                                                                 Plain(Frame(frameType, fragment)))))
      modifies session
      ensures ok == (|before| < okWrites)
      ensures written == all[..|before| + if ok then 1 else 0]
      ensures session.State() == s.(send := Some(Cipher(c.key, c.nonce + |before| + 1)))
    {
      var encrypted := session.Encrypt(a, [frameType] + fragment);
      var packet := Build(Packet(PACKET_DATA, encrypted.value));
      ok := |before| < okWrites;
      written := if ok then before + [packet] else before;
    }

    /** Sends user data on a channel the node itself must subscribe to. */
    method Send(a: Aead<Bytes>, p: Peer, channelName: string, data: Bytes, okWrites: nat)
      returns (written: seq<Bytes>, ok: bool)
      requires |hash(channelName)| == HASH_SIZE
      modifies p.session
      ensures p.session == old(p.session)
      ensures if hash(channelName) in localChannelSet
              then SentAs(a, old(p.SessionView()), [APP_USER] + (hash(channelName) + data),
                          okWrites, written, ok, p.SessionView())
              else !ok && written == [] && p.SessionView() == old(p.SessionView())
    {
      var channelHash := hash(channelName);
      var subscribed := IsChannelSubscribed(channelHash);
      if !subscribed {
        return [], false;
      }
      written, ok := SendAppFrame(a, p, APP_USER, channelHash + data, okWrites);
    }

    /** The synchronous part: mark, reserve, and on admission clear the decrypt-failure counter. */
    method TriggerFastRehandshake(p: Peer, now: int) returns (verdict: Verdict)
      modifies p`consecutiveDecryptFails, p`rehandshakeInFlight, p`rehandshakeWindowStart, p`rehandshakeWindowCount
      ensures (p.GateView(), verdict) == Trigger(old(p.GateView()), config, now)
    {
      var begun := p.TryBeginRehandshake();
      if !begun {
        return Busy;
      }
      var allowed, wait := p.ReserveRehandshakeAttempt(now, config.window, config.limit);
      if !allowed {
        p.EndRehandshake();
        return Refused(wait);
      }
      p.ResetDecryptFailures();
      return Admitted;
    }

    /** One data packet from a known peer. */
    method ProcessData<C>(a: Aead<C>, p: Peer, ct: C, now: int) returns (outcome: Outcome, verdict: Option<Verdict>)
      modifies this`received, this`channelUpdates, p.session, p`reassembly
      modifies p`consecutiveDecryptFails, p`rehandshakeInFlight, p`rehandshakeWindowStart, p`rehandshakeWindowCount
      ensures (p.RxView(), outcome) == Receive(a, old(p.RxView()), ct)
      ensures (p.GateView(), verdict) ==
              if outcome.Undecryptable? then OnDecryptFailure(old(p.GateView()), config, now)
              else (old(p.GateView()).(decryptFails := 0), None)
      ensures received == old(received) + ReceivedFrom(localChannelSet, PayloadsOf(outcome))
      ensures channelUpdates == old(channelUpdates)
                                + if outcome.Payload? then Updates(OnAppFrame(localChannelSet, outcome.data)) else []
    {
      hide Trigger, OnAppFrame, ReceivedFrom;
      verdict := None;
      NothingReceived(localChannelSet);
      var plaintext := p.Decrypt(a, ct);
      if plaintext.None? {
        outcome := Undecryptable;
        var failures := p.IncDecryptFailures();
        if failures >= config.threshold {
          var v := TriggerFastRehandshake(p, now);
          verdict := Some(v);
        }
        return;
      }
      p.ResetDecryptFailures();
      outcome := Absorbed;
      if |plaintext.value| < 1 {
        return;
      }
      var frameType, frameData := plaintext.value[0], plaintext.value[1..];
      if frameType == FRAME_SINGLE {
        p.ResetReassembly();
        HandleAppFrame(frameData);
        outcome := Payload(frameData);
      } else if frameType == FRAME_FIRST {
        p.StartReassembly(frameData);
      } else if frameType == FRAME_MIDDLE {
        var ok, overflow := p.AppendReassembly(frameData, MAX_REASSEMBLY);
      } else if frameType == FRAME_LAST {
        var complete, ok, overflow := p.FinishReassembly(frameData, MAX_REASSEMBLY);
        if ok {
          HandleAppFrame(complete);
          outcome := Payload(complete);
        }
      }
      if outcome.Payload? {
        ReceivedFromOne(localChannelSet, outcome.data);
      }
    }
  }
}
