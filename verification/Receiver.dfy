/** The receive path of one peer on values: decrypt, then reassemble (node/data_flow.go, peer/peer.go). */
module Receiver {
  import opened Base
  import opened Noise
  import opened Fragmentation

  /** The part of a peer that incoming data touches. */
  datatype Rx = Rx(session: Option<SessionState>, buffer: Option<Bytes>)

  /** What one data packet leads to: `Payload` is a call of handleAppFrame. */
  datatype Outcome = Undecryptable | Absorbed | Payload(data: Bytes)

  function DecryptPeer<C>(a: Aead<C>, session: Option<SessionState>, ct: C): (Option<SessionState>, Option<Bytes>) {
    match session
    case None => (None, None)
    case Some(s) => var (s', plain) := DecryptStep(a, s, ct); (Some(s'), plain)
  }

  function OnPlaintext(buffer: Option<Bytes>, plain: Bytes): (Option<Bytes>, Outcome) {
    if |plain| < 1 then (buffer, Absorbed)
    else
      var (b, done) := Reassemble(buffer, Frame(plain[0], plain[1..]));
      (b, if done.Some? then Payload(done.value) else Absorbed)
  }

  function Receive<C>(a: Aead<C>, rx: Rx, ct: C): (Rx, Outcome) {
    var (session, plain) := DecryptPeer(a, rx.session, ct);
    if plain.None? then (Rx(session, rx.buffer), Undecryptable)
    else
      var (buffer, outcome) := OnPlaintext(rx.buffer, plain.value);
      (Rx(session, buffer), outcome)
  }

  function PayloadsOf(o: Outcome): seq<Bytes> {
    if o.Payload? then [o.data] else []
  }

  lemma {:induction false} OnPlaintextOfFrame(buffer: Option<Bytes>, f: Frame)
    ensures var (b, done) := Reassemble(buffer, f);
            && OnPlaintext(buffer, Plain(f)).0 == b
            && PayloadsOf(OnPlaintext(buffer, Plain(f)).1) == ToSeq(done)
  {
    assert Frame(Plain(f)[0], Plain(f)[1..]) == f;
  }

  /** A plaintext that is no frame of the four kinds is absorbed and leaves a message being collected alone. */
  lemma {:induction false} OtherPlaintextsAbsorbed(buffer: Option<Bytes>, plain: Bytes)
    requires plain == [] || plain[0] !in {FRAME_SINGLE, FRAME_FIRST, FRAME_MIDDLE, FRAME_LAST}
    ensures OnPlaintext(buffer, plain) == (buffer, Absorbed)
  {
  }

  /** An undecryptable packet changes nothing, and every decrypted one advances the receive nonce by one. */
  lemma {:induction false} ReceiveNonce<C>(a: Aead<C>, rx: Rx, ct: C)
    ensures var (rx', o) := Receive(a, rx, ct);
            if o.Undecryptable? then rx' == rx
            else
              && rx.session.Some? && rx.session.value.recv.Some?
              && rx'.session == Some(rx.session.value.(recv := Some(Advance(rx.session.value.recv.value))))
  {
  }
}
