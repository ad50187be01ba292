/** Application frames on values: what sendAppFrame puts on the wire and what handleAppFrame does with a payload. */
module AppFrames {
  import opened Base
  import opened Noise
  import opened Fragmentation
  import opened Framing

  const APP_CHANNEL_UPDATE: byte := 1
  const APP_USER: byte := 2

  const HASH_SIZE := 32

  /** `Received` is a call of the onReceive callback, `ChannelUpdate` one of processChannelUpdate. */
  datatype AppEvent = Ignored | Received(data: Bytes) | ChannelUpdate(update: Bytes)

  /** index is the set of subscribed channel hashes. */
  function OnAppFrame(index: set<Bytes>, data: Bytes): AppEvent {
    if |data| < 1 then Ignored
    else
      var payload := data[1..];
      if data[0] == APP_USER then
        if |payload| < HASH_SIZE || payload[..HASH_SIZE] !in index then Ignored
        else Received(payload[HASH_SIZE..])
      else if data[0] == APP_CHANNEL_UPDATE then ChannelUpdate(payload)
      else Ignored
  }

  /** Data reaches the application exactly when it comes behind the hash of a subscribed channel in a user frame. */
  lemma {:induction false} ReceivedExactly(index: set<Bytes>, frame: Bytes, data: Bytes)
    ensures OnAppFrame(index, frame) == Received(data)
            <==> |frame| > HASH_SIZE && frame[1..][..HASH_SIZE] in index
                 && frame == [APP_USER] + frame[1..][..HASH_SIZE] + data
  {
    if |frame| > HASH_SIZE {
      assert frame == [frame[0]] + frame[1..][..HASH_SIZE] + frame[1..][HASH_SIZE..];
    }
  }

  /** A channel update is handed on exactly as it was sent, whatever the subscriptions. */
  lemma {:induction false} UpdateExactly(index: set<Bytes>, frame: Bytes, update: Bytes)
    ensures OnAppFrame(index, frame) == ChannelUpdate(update) <==> frame == [APP_CHANNEL_UPDATE] + update
  {
    if |frame| > 0 {
      assert frame == [frame[0]] + frame[1..];
    }
  }

  function UserData(e: AppEvent): seq<Bytes> {
    if e.Received? then [e.data] else []
  }

  function Updates(e: AppEvent): seq<Bytes> {
    if e.ChannelUpdate? then [e.update] else []
  }

  /** The onReceive calls a list of payloads leads to. */
  function ReceivedFrom(index: set<Bytes>, payloads: seq<Bytes>): seq<Bytes> {
    if payloads == [] then [] else UserData(OnAppFrame(index, payloads[0])) + ReceivedFrom(index, payloads[1..])
  }

  lemma {:induction false} ReceivedFromAppend(index: set<Bytes>, xs: seq<Bytes>, ys: seq<Bytes>)
    ensures ReceivedFrom(index, xs + ys) == ReceivedFrom(index, xs) + ReceivedFrom(index, ys)
  {
    if xs == [] {
      assert xs + ys == ys;
    } else {
      assert (xs + ys)[1..] == xs[1..] + ys;
      ReceivedFromAppend(index, xs[1..], ys);
    }
  }

  lemma {:induction false} NothingReceived(index: set<Bytes>)
    ensures ReceivedFrom(index, []) == []
  {
  }

  lemma {:induction false} ReceivedFromOne(index: set<Bytes>, payload: Bytes)
    ensures ReceivedFrom(index, [payload]) == UserData(OnAppFrame(index, payload))
  {
    hide OnAppFrame;
    assert [payload][1..] == [];
  }

  /** Frames encrypted one after the other from cipher state c. */
  function SealFrames<C>(a: Aead<C>, c: Cipher, fs: seq<Frame>): (r: seq<C>)
    ensures |r| == |fs|
  {
    seq(|fs|, i requires 0 <= i < |fs| => a.seal(c.key, c.nonce + i, Plain(fs[i])))
  }

  lemma {:induction false} DataPacketAt(a: Aead<Bytes>, c: Cipher, fs: seq<Frame>, i: nat)
    requires i < |fs|
    ensures DataPackets(SealFrames(a, c, fs))[i] == Build(Packet(PACKET_DATA, a.seal(c.key, c.nonce + i, Plain(fs[i]))))
  {
  }

  /** The packets these frames travel in. */
  function DataPackets(cts: seq<Bytes>): (r: seq<Bytes>)
    ensures |r| == |cts|
  {
    seq(|cts|, i requires 0 <= i < |cts| => Build(Packet(PACKET_DATA, cts[i])))
  }
}
