/** Losing a frame: the session never recovers by itself, and the receiver notices (node/data_flow.go). */
module Desync {
  import opened Base
  import opened Noise
  import opened Receiver
  import opened Recovery
  import RecoveryRuns

  /**
    What happens to a peer: a frame sealed under the session's key arrives, or the re-handshake task reports
    its result or ends.
  */
  datatype Happening =
    | Arrival(nonce: nat, plain: Bytes, now: int)
    | Report(result: RecoveryRuns.Result, now: int)
    | TaskEnd(now: int)

  /** One data packet against the receive path and the recovery state of a peer. */
  function Process<C>(a: Aead<C>, c: Config, rx: Rx, g: Gate, ct: C, now: int): (Rx, Gate, Outcome, Option<Verdict>) {
    var (rx', outcome) := Receive(a, rx, ct);
    if outcome.Undecryptable? then
      var (g', verdict) := OnDecryptFailure(g, c, now);
      (rx', g', outcome, verdict)
    else (rx', g.(decryptFails := 0), outcome, None)
  }

  /** `verdicts` are the answers to the triggers so far, one per happening, None where there was no trigger. */
  datatype Peer = Peer(rx: Rx, gate: Gate, verdicts: seq<Option<Verdict>>)

  function Next<C>(a: Aead<C>, c: Config, k: Key, p: Peer, x: Happening): Peer {
    match x
    case Arrival(nonce, plain, now) =>
      var (rx, gate, _, verdict) := Process(a, c, p.rx, p.gate, a.seal(k, nonce, plain), now);
      Peer(rx, gate, p.verdicts + [verdict])
    case Report(result, now) =>
      Peer(p.rx, RecoveryRuns.Recorded(c, p.gate, result, now), p.verdicts + [None])
    case TaskEnd(_) => Peer(p.rx, p.gate.(inFlight := false), p.verdicts + [None])
  }

  /** The peer after a list of happenings. */
  function After<C>(a: Aead<C>, c: Config, k: Key, rx: Rx, g: Gate, xs: seq<Happening>): (p: Peer)
    ensures |p.verdicts| == |xs|
  {
    if xs == [] then Peer(rx, g, [])
    else Next(a, c, k, After(a, c, k, rx, g, xs[..|xs| - 1]), xs[|xs| - 1])
  }

  predicate Expects(rx: Rx, k: Key, n: nat) {
    rx.session.Some? && rx.session.value.recv == Some(Cipher(k, n))
  }

  predicate NeverArrives(xs: seq<Happening>, n: nat) {
    forall i :: 0 <= i < |xs| && xs[i].Arrival? ==> xs[i].nonce != n
  }

  /** How many frames arrived since a re-handshake was last admitted. */
  function Unanswered(xs: seq<Happening>, verdicts: seq<Option<Verdict>>): nat
    requires |xs| == |verdicts|
  {
    if xs == [] then 0
    else
      var last := |xs| - 1;
      if verdicts[last] == Some(Admitted) then 0
      else Unanswered(xs[..last], verdicts[..last]) + if xs[last].Arrival? then 1 else 0
  }

  lemma {:induction false} FailureCounts(g: Gate, c: Config, now: int)
    ensures var (g', verdict) := OnDecryptFailure(g, c, now);
            g'.decryptFails == if verdict == Some(Admitted) then 0 else g.decryptFails + 1
  {
  }

  /** One happening other than the arrival of the awaited frame. */
  lemma {:induction false} BlockedStep<C>(a: Aead<C>, c: Config, k: Key, p: Peer, n: nat, x: Happening)
    requires Ideal(a) && Expects(p.rx, k, n) && (x.Arrival? ==> x.nonce != n)
    ensures var p' := Next(a, c, k, p, x);
            && p'.rx == p.rx && |p'.verdicts| == |p.verdicts| + 1 && p'.verdicts[..|p.verdicts|] == p.verdicts
            && p'.gate.decryptFails == if p'.verdicts[|p.verdicts|] == Some(Admitted) then 0
                                       else p.gate.decryptFails + if x.Arrival? then 1 else 0
  {
    hide OnDecryptFailure;
    if x.Arrival? {
      assert a.open(k, n, a.seal(k, x.nonce, x.plain)) == None;
      FailureCounts(p.gate, c, x.now);
    }
  }

  /** The receive path stays where it was and the counter counts the unanswered frames. */
  lemma {:induction false} LostFrameBlocks<C>(a: Aead<C>, c: Config, k: Key, rx: Rx, g: Gate, n: nat,
                                              xs: seq<Happening>)
    requires Ideal(a) && Expects(rx, k, n) && NeverArrives(xs, n) && g.decryptFails == 0
    ensures var p := After(a, c, k, rx, g, xs);
            p.rx == rx && p.gate.decryptFails == Unanswered(xs, p.verdicts)
    decreases |xs|
  {
    if xs != [] {
      hide Next;
      LostFrameBlocks(a, c, k, rx, g, n, xs[..|xs| - 1]);
      BlockedStep(a, c, k, After(a, c, k, rx, g, xs[..|xs| - 1]), n, xs[|xs| - 1]);
    }
  }

  /**
    Desync is permanent and detected. Once the frame the receiver waits for does not arrive, as when an
    in-order channel lost it, no frame of the session decrypts any more, however many arrive and whatever the
    re-handshake task does meanwhile. A frame triggers a re-handshake exactly when, with it, the frames since
    the last admission have reached the threshold; so after a trigger that was not admitted every further
    frame triggers again.
  */
  lemma {:induction false} LossIsDetected<C>(a: Aead<C>, c: Config, k: Key, rx: Rx, g: Gate, n: nat,
                                             xs: seq<Happening>, i: nat)
    requires Ideal(a) && Expects(rx, k, n) && NeverArrives(xs, n) && g.decryptFails == 0
    requires i < |xs| && xs[i].Arrival?
    ensures var p := After(a, c, k, rx, g, xs[..i]);
            var ct := a.seal(k, xs[i].nonce, xs[i].plain);
            var (rx', g', outcome, verdict) := Process(a, c, p.rx, p.gate, ct, xs[i].now);
            && outcome == Undecryptable && rx' == rx
            && (verdict.Some? <==> Unanswered(xs[..i], p.verdicts) + 1 >= c.threshold)
            && (verdict.Some? ==> verdict.value == Trigger(p.gate, c, xs[i].now).1)
            && g'.decryptFails == if verdict == Some(Admitted) then 0 else Unanswered(xs[..i], p.verdicts) + 1
  {
    LostFrameBlocks(a, c, k, rx, g, n, xs[..i]);
  }

  /** Without loss every frame opens, so only a loss leads to the above. */
  lemma {:induction false} NoLossNoFailure<C>(a: Aead<C>, c: Config, k: Key, rx: Rx, g: Gate, n: nat,
                                              xs: seq<Happening>)
    requires Ideal(a) && Expects(rx, k, n) && g.decryptFails == 0
    requires forall i :: 0 <= i < |xs| ==> xs[i].Arrival? && xs[i].nonce == n + i
    ensures var p := After(a, c, k, rx, g, xs);
            Expects(p.rx, k, n + |xs|) && p.gate == g
    decreases |xs|
  {
    if xs != [] {
      NoLossNoFailure(a, c, k, rx, g, n, xs[..|xs| - 1]);
    }
  }
}
