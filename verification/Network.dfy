/**
  One direction of a tunnel over a hostile network. The sender cuts messages into frames under the send
  lock and may abort any of them; either side may replace or close its session at any time (the sender
  only between messages, because UpgradeTransport and Close wait for the send lock); the network drops,
  duplicates, delays, reorders and injects packets.
*/
module Network {
  import opened Base
  import opened Noise
  import opened Fragmentation
  import opened Receiver

  // ---- What was sent under one key ----

  /** One sendAppFrame call: its payload and how many of its frames were encrypted before it ended. */
  datatype Sent = Sent(payload: Bytes, emitted: nat)

  function Cut(s: Sent): (fs: seq<Frame>)
    ensures |fs| <= s.emitted
  {
    Fragments(s.payload)[..Min(s.emitted, |Fragments(s.payload)|)]
  }

  predicate Whole(s: Sent) {
    s.emitted >= |Fragments(s.payload)|
  }

  /** All frames encrypted under one key, in nonce order. */
  function FramesOf(log: seq<Sent>): seq<Frame> {
    if log == [] then [] else FramesOf(log[..|log| - 1]) + Cut(log[|log| - 1])
  }

  lemma {:induction false} FramesOfSnoc(log: seq<Sent>, s: Sent)
    ensures FramesOf(log + [s]) == FramesOf(log) + Cut(s)
  {
    assert (log + [s])[..|log|] == log;
  }

  function Take<T>(s: seq<T>, n: nat): (r: seq<T>)
    ensures |r| == Min(n, |s|)
  {
    s[..Min(n, |s|)]
  }

  /**
    The calls whose payload the first n frames of a log deliver: complete, within the reassembly limit,
    each listed once and in sending order.
  */
  function Positions(log: seq<Sent>, n: nat): (r: seq<nat>)
    ensures forall i :: 0 <= i < |r| ==> r[i] < |log| && Whole(log[r[i]]) && Deliverable(log[r[i]].payload)
    ensures forall i, j :: 0 <= i < j < |r| ==> r[i] < r[j]
  {
    if log == [] then []
    else
      var last := log[|log| - 1];
      var before := Positions(log[..|log| - 1], n);
      if n >= |FramesOf(log)| && Whole(last) && Deliverable(last.payload) then before + [|log| - 1] else before
  }

  function PayloadsAt(log: seq<Sent>, at: seq<nat>): (r: seq<Bytes>)
    requires forall i :: 0 <= i < |at| ==> at[i] < |log|
    ensures |r| == |at|
    ensures forall i :: 0 <= i < |at| ==> r[i] == log[at[i]].payload
  {
    seq(|at|, i requires 0 <= i < |at| => log[at[i]].payload)
  }

  lemma {:induction false} WholeIsNotEmpty(s: Sent)
    requires Whole(s)
    ensures |Cut(s)| > 0
  {
  }

  lemma {:induction false} CompletedCut(buffer: Option<Bytes>, s: Sent, m: nat)
    ensures Completed(buffer, Take(Cut(s), m)) ==
            if m >= |Cut(s)| && Whole(s) && Deliverable(s.payload) then [s.payload] else []
  {
    hide Completed, Deliverable, Fragments;
    var fs := Fragments(s.payload);
    var k := Min(m, |Cut(s)|);
    assert Take(Cut(s), m) == fs[..k];
    if k < |fs| {
      TruncatedDeliversNothing(buffer, s.payload, k);
    } else {
      assert fs[..k] == fs;
      FragmentRoundTrip(buffer, s.payload);
    }
  }

  lemma {:induction false} TakeAppend<T>(xs: seq<T>, ys: seq<T>, n: nat)
    ensures Take(xs + ys, n) == Take(xs, n) + Take(ys, if n > |xs| then n - |xs| else 0)
  {
  }

  /** The payloads at positions of a log do not depend on what is logged later. */
  lemma {:induction false} PayloadsSnoc(log: seq<Sent>, s: Sent, at: seq<nat>)
    requires forall i :: 0 <= i < |at| ==> at[i] < |log|
    ensures PayloadsAt(log + [s], at) == PayloadsAt(log, at)
    ensures PayloadsAt(log + [s], at + [|log|]) == PayloadsAt(log, at) + [s.payload]
  {
  }

  lemma {:induction false} PositionsSnoc(log: seq<Sent>, s: Sent, n: nat)
    ensures Positions(log + [s], n) == Positions(log, n) +
            if n >= |FramesOf(log)| + |Cut(s)| && Whole(s) && Deliverable(s.payload) then [|log|] else []
  {
    hide Cut, Whole, Deliverable;
    FramesOfSnoc(log, s);
    assert (log + [s])[..|log|] == log;
  }

  /** From any buffer, the first n frames of a log complete exactly the payloads at Positions(log, n). */
  lemma {:induction false} CompletedExactly(buffer: Option<Bytes>, log: seq<Sent>, n: nat)
    ensures Completed(buffer, Take(FramesOf(log), n)) == PayloadsAt(log, Positions(log, n))
  {
    if log != [] {
      hide Completed, BufferAfter, Cut, Whole, Deliverable, FramesOf, Positions, PayloadsAt, Take;
      var init, last := log[..|log| - 1], log[|log| - 1];
      var head, cut := FramesOf(init), Cut(last);
      var m: nat := if n > |head| then n - |head| else 0;
      assert log == init + [last];
      CompletedExactly(buffer, init, n);
      FramesOfSnoc(init, last);
      TakeAppend(head, cut, n);
      FeedAppend(buffer, Take(head, n), Take(cut, m));
      CompletedCut(BufferAfter(buffer, Take(head, n)), last, m);
      if Whole(last) {
        WholeIsNotEmpty(last);
      }
      PositionsSnoc(init, last, n);
      PayloadsSnoc(init, last, Positions(init, n));
      assert Positions(init, n) + [] == Positions(init, n);
    }
  }

  // ---- The system ----

  /** One receive session: its key, the plaintexts opened under it, the payloads it handed on. */
  datatype Epoch = Epoch(key: Key, start: Option<Bytes>, plains: seq<Bytes>, delivered: seq<Bytes>)

  datatype System<!C> = System(
    tx: Option<SessionState>,     // the sender's session
    sending: Option<Sent>,        // the message the send lock is held for
    rx: Rx,                       // the receiver's session and reassembly buffer
    pool: seq<C>,                 // every packet the network has seen
    logs: map<Key, seq<Sent>>,    // history: calls per send key
    wire: map<Key, seq<Frame>>,   // history: frames encrypted per send key, in nonce order
    epochs: seq<Epoch>,           // history: receive sessions in installation order
    trace: seq<Bytes>)            // history: payloads passed to handleAppFrame

  datatype Step<!C> =
    | Begin(payload: Bytes)
    | Emit
    | Abort
    | TxUpgrade(txSession: SessionState)
    | TxClose
    | RxUpgrade(rxSession: SessionState)
    | RxClose
    | Deliver(index: nat)
    | Inject(packet: C)

  function At<T>(m: map<Key, seq<T>>, k: Key): seq<T> {
    if k in m then m[k] else []
  }

  function SendCipher(tx: Option<SessionState>): Option<Cipher> {
    if tx.Some? then tx.value.send else None
  }

  function RecvCipher(rx: Rx): Option<Cipher> {
    if rx.session.Some? then rx.session.value.recv else None
  }

  predicate FreshSend(s: SessionState, keys: iset<Key>, logs: map<Key, seq<Sent>>) {
    s.send.Some? && s.send.value.nonce == 0 && s.send.value.key in keys && s.send.value.key !in logs
  }

  predicate FreshRecv(s: SessionState, keys: iset<Key>, epochs: seq<Epoch>) {
    s.recv.Some? && s.recv.value.nonce == 0 && s.recv.value.key in keys
    && forall e :: e in epochs ==> e.key != s.recv.value.key
  }

  /** The network cannot make a packet that opens under a tunnel key by itself. */
  ghost predicate Unforgeable<C>(a: Aead<C>, keys: iset<Key>, packet: C) {
    forall k: Key, n: nat :: k in keys ==> a.open(k, n, packet) == None
  }

  /** A send needs a live session and the lock. */
  function DoBegin<C>(s: System<C>, payload: Bytes): System<C> {
    var c := SendCipher(s.tx);
    if s.sending.Some? || c.None? then s
    else
      s.(sending := Some(Sent(payload, 0)),
         logs := s.logs[c.value.key := At(s.logs, c.value.key) + [Sent(payload, 0)]])
  }

  /** Encrypt and hand out the next frame of the message under the lock; the last one releases the lock. */
  function DoEmit<C>(a: Aead<C>, s: System<C>): System<C> {
    var c := SendCipher(s.tx);
    if s.sending.None? || c.None? || s.sending.value.emitted >= |Fragments(s.sending.value.payload)| then s
    else
      var Sent(payload, e) := s.sending.value;
      var fs := Fragments(payload);
      var (tx', ct) := EncryptStep(a, s.tx.value, Plain(fs[e]));
      var log := At(s.logs, c.value.key);
      var init := if log == [] then [] else log[..|log| - 1];
      s.(tx := Some(tx'),
         sending := if e + 1 == |fs| then None else Some(Sent(payload, e + 1)),
         pool := s.pool + ToSeq(ct),
         logs := s.logs[c.value.key := init + [Sent(payload, e + 1)]],
         wire := s.wire[c.value.key := At(s.wire, c.value.key) + [fs[e]]])
  }

  function DoRxUpgrade<C>(s: System<C>, keys: iset<Key>, session: SessionState): System<C> {
    if !FreshRecv(session, keys, s.epochs) then s
    else
      // UpgradeTransport replaces the session and leaves the reassembly buffer alone.
      s.(rx := Rx(Some(session), s.rx.buffer),
         epochs := s.epochs + [Epoch(session.recv.value.key, s.rx.buffer, [], [])])
  }

  function DoDeliver<C>(a: Aead<C>, s: System<C>, index: nat): System<C> {
    if index >= |s.pool| then s
    else
      var plain := DecryptPeer(a, s.rx.session, s.pool[index]).1;
      var (rx', outcome) := Receive(a, s.rx, s.pool[index]);
      if plain.None? || s.epochs == [] then s.(rx := rx')
      else
        var e := s.epochs[|s.epochs| - 1];
        var e' := e.(plains := e.plains + [plain.value], delivered := e.delivered + PayloadsOf(outcome));
        s.(rx := rx',
           epochs := s.epochs[..|s.epochs| - 1] + [e'],
           trace := s.trace + PayloadsOf(outcome))
  }

  /** One step; a step that is not enabled leaves the system as it is. */
  ghost function Next<C>(a: Aead<C>, keys: iset<Key>, s: System<C>, step: Step<C>): System<C> {
    match step
    case Begin(payload) => DoBegin(s, payload)
    case Emit => DoEmit(a, s)
    case Abort => s.(sending := None)
    case TxUpgrade(session) =>
      if s.sending.Some? || !FreshSend(session, keys, s.logs) then s
      else
        var k := session.send.value.key;
        s.(tx := Some(session), logs := s.logs[k := []], wire := s.wire[k := []])
    case TxClose => if s.sending.Some? then s else s.(tx := None)
    case RxUpgrade(session) => DoRxUpgrade(s, keys, session)
    case RxClose => s.(rx := Rx(None, s.rx.buffer))
    case Deliver(index) => DoDeliver(a, s, index)
    case Inject(packet) => if Unforgeable(a, keys, packet) then s.(pool := s.pool + [packet]) else s
  }

  function Init<C>(buffer: Option<Bytes>): System<C> {
    System(None, None, Rx(None, buffer), [], map[], map[], [], [])
  }

  ghost function Run<C>(a: Aead<C>, keys: iset<Key>, s: System<C>, steps: seq<Step<C>>): System<C> {
    if steps == [] then s
    else Next(a, keys, Run(a, keys, s, steps[..|steps| - 1]), steps[|steps| - 1])
  }

  // ---- Invariant ----

  /** What a packet opens to under a tunnel key is what was encrypted at that nonce. */
  ghost predicate Authentic<C>(a: Aead<C>, keys: iset<Key>, wire: map<Key, seq<Frame>>, packet: C) {
    forall k: Key, n: nat :: k in keys && a.open(k, n, packet).Some? ==>
      n < |At(wire, k)| && a.open(k, n, packet).value == Plain(At(wire, k)[n])
  }

  function Plains(fs: seq<Frame>): (r: seq<Bytes>)
    ensures |r| == |fs|
  {
    seq(|fs|, i requires 0 <= i < |fs| => Plain(fs[i]))
  }

  /** A session opened a prefix of the frames sent under its key and delivered what that prefix completes. */
  predicate EpochOk(fs: seq<Frame>, e: Epoch) {
    && |e.plains| <= |fs|
    && e.plains == Plains(fs[..|e.plains|])
    && e.delivered == Completed(e.start, fs[..|e.plains|])
  }

  predicate LogsOk(logs: map<Key, seq<Sent>>, wire: map<Key, seq<Frame>>) {
    logs.Keys == wire.Keys && forall k :: k in logs ==> FramesOf(logs[k]) == wire[k]
  }

  lemma {:induction false} LogsUpdated(logs: map<Key, seq<Sent>>, wire: map<Key, seq<Frame>>, k: Key,
                                       log: seq<Sent>, fs: seq<Frame>)
    requires LogsOk(logs, wire) && FramesOf(log) == fs
    ensures LogsOk(logs[k := log], wire[k := fs])
  {
  }

  /** The sender's nonce counts the frames on the wire, and these are the frames of the logged calls. */
  predicate TxOk(keys: iset<Key>, tx: Option<SessionState>, sending: Option<Sent>,
                 logs: map<Key, seq<Sent>>, wire: map<Key, seq<Frame>>) {
    var c := SendCipher(tx);
    && LogsOk(logs, wire)
    && (c.Some? ==> c.value.key in keys && c.value.key in wire && c.value.nonce == |wire[c.value.key]|)
    && (sending.Some? ==>
          && c.Some?
          && sending.value.emitted < |Fragments(sending.value.payload)|
          && (var log := logs[c.value.key]; log != [] && log[|log| - 1] == sending.value))
  }

  /** The receive nonce and the buffer are where the frames opened in the current session put them. */
  predicate RxOk(rx: Rx, epochs: seq<Epoch>, wire: map<Key, seq<Frame>>) {
    var c := RecvCipher(rx);
    c.Some? ==>
      && epochs != []
      && var e := epochs[|epochs| - 1];
      && e.key == c.value.key && c.value.nonce == |e.plains|
      && |e.plains| <= |At(wire, e.key)|
      && rx.buffer == BufferAfter(e.start, At(wire, e.key)[..|e.plains|])
  }

  function DeliveredBy(epochs: seq<Epoch>): seq<Bytes> {
    if epochs == [] then [] else DeliveredBy(epochs[..|epochs| - 1]) + epochs[|epochs| - 1].delivered
  }

  ghost predicate HistoryOk<C>(a: Aead<C>, keys: iset<Key>, wire: map<Key, seq<Frame>>, pool: seq<C>,
                               epochs: seq<Epoch>) {
    && (forall i :: 0 <= i < |pool| ==> Authentic(a, keys, wire, pool[i]))
    && (forall i :: 0 <= i < |epochs| ==> epochs[i].key in keys && EpochOk(At(wire, epochs[i].key), epochs[i]))
    && (forall i, j :: 0 <= i < j < |epochs| ==> epochs[i].key != epochs[j].key)
  }

  ghost predicate Inv<C>(a: Aead<C>, keys: iset<Key>, s: System<C>) {
    && TxOk(keys, s.tx, s.sending, s.logs, s.wire)
    && RxOk(s.rx, s.epochs, s.wire)
    && HistoryOk(a, keys, s.wire, s.pool, s.epochs)
    && s.trace == DeliveredBy(s.epochs)
  }

  /** A new frame under one key changes nothing that has been opened. */
  lemma {:induction false} GrowthKeepsHistory<C>(a: Aead<C>, keys: iset<Key>, s: System<C>, k: Key, fs: seq<Frame>)
    requires RxOk(s.rx, s.epochs, s.wire) && HistoryOk(a, keys, s.wire, s.pool, s.epochs)
    requires At(s.wire, k) <= fs
    ensures var wire' := s.wire[k := fs];
            RxOk(s.rx, s.epochs, wire') && HistoryOk(a, keys, wire', s.pool, s.epochs)
  {
    var wire' := s.wire[k := fs];
    forall i | 0 <= i < |s.pool|
      ensures Authentic(a, keys, wire', s.pool[i])
    {
      assert Authentic(a, keys, s.wire, s.pool[i]);
    }
    forall i | 0 <= i < |s.epochs|
      ensures EpochOk(At(wire', s.epochs[i].key), s.epochs[i])
    {
      var e := s.epochs[i];
      assert At(wire', e.key)[..|e.plains|] == At(s.wire, e.key)[..|e.plains|];
    }
    if RecvCipher(s.rx).Some? {
      var e := s.epochs[|s.epochs| - 1];
      assert At(wire', e.key)[..|e.plains|] == At(s.wire, e.key)[..|e.plains|];
    }
  }

  lemma {:induction false} BeginKeepsInv<C>(a: Aead<C>, keys: iset<Key>, s: System<C>, payload: Bytes)
    requires Inv(a, keys, s)
    ensures Inv(a, keys, DoBegin(s, payload))
  {
    var c := SendCipher(s.tx);
    if s.sending.None? && c.Some? {
      var k := c.value.key;
      FramesOfSnoc(s.logs[k], Sent(payload, 0));
      assert Cut(Sent(payload, 0)) == [];
      LogsUpdated(s.logs, s.wire, k, s.logs[k] + [Sent(payload, 0)], s.wire[k]);
      assert s.wire[k := s.wire[k]] == s.wire;
    }
  }

  lemma {:induction false} EmitGrows(log: seq<Sent>, payload: Bytes, e: nat)
    requires log != [] && log[|log| - 1] == Sent(payload, e) && e < |Fragments(payload)|
    ensures FramesOf(log[..|log| - 1] + [Sent(payload, e + 1)]) == FramesOf(log) + [Fragments(payload)[e]]
  {
    hide Fragments;
    FramesOfSnoc(log[..|log| - 1], Sent(payload, e + 1));
    var fs := Fragments(payload);
    assert fs[..e + 1] == fs[..e] + [fs[e]];
  }

  lemma {:induction false} EmitKeepsTx<C>(a: Aead<C>, keys: iset<Key>, s: System<C>)
    requires TxOk(keys, s.tx, s.sending, s.logs, s.wire)
    ensures var s' := DoEmit(a, s); TxOk(keys, s'.tx, s'.sending, s'.logs, s'.wire)
  {
    if s.sending.Some? {
      var Sent(payload, e) := s.sending.value;
      var key := SendCipher(s.tx).value.key;
      var log, f := s.logs[key], Fragments(payload)[e];
      var log' := log[..|log| - 1] + [Sent(payload, e + 1)];
      EmitGrows(log, payload, e);
      LogsUpdated(s.logs, s.wire, key, log', s.wire[key] + [f]);
      assert log'[|log'| - 1] == Sent(payload, e + 1);
    }
  }

  lemma {:induction false} SealedIsAuthentic<C>(a: Aead<C>, keys: iset<Key>, wire: map<Key, seq<Frame>>, k: Key,
                                                f: Frame)
    requires Ideal(a)
    ensures Authentic(a, keys, wire[k := At(wire, k) + [f]], a.seal(k, |At(wire, k)|, Plain(f)))
  {
  }

  lemma {:induction false} PoolGrows<C>(a: Aead<C>, keys: iset<Key>, wire: map<Key, seq<Frame>>, pool: seq<C>,
                                        epochs: seq<Epoch>, ct: C)
    requires HistoryOk(a, keys, wire, pool, epochs) && Authentic(a, keys, wire, ct)
    ensures HistoryOk(a, keys, wire, pool + [ct], epochs)
  {
  }

  lemma {:induction false} EmitKeepsRest<C>(a: Aead<C>, keys: iset<Key>, s: System<C>)
    requires Ideal(a) && s.sending.Some? && TxOk(keys, s.tx, s.sending, s.logs, s.wire)
    requires RxOk(s.rx, s.epochs, s.wire) && HistoryOk(a, keys, s.wire, s.pool, s.epochs)
    ensures var s' := DoEmit(a, s);
            RxOk(s'.rx, s'.epochs, s'.wire) && HistoryOk(a, keys, s'.wire, s'.pool, s'.epochs)
  {
    var s' := DoEmit(a, s);
    var f := Fragments(s.sending.value.payload)[s.sending.value.emitted];
    var Cipher(key, n) := SendCipher(s.tx).value;
    var fs := At(s.wire, key) + [f];
    GrowthKeepsHistory(a, keys, s, key, fs);
    SealedIsAuthentic(a, keys, s.wire, key, f);
    PoolGrows(a, keys, s.wire[key := fs], s.pool, s.epochs, a.seal(key, n, Plain(f)));
    assert s'.pool == s.pool + [a.seal(key, n, Plain(f))];
    assert s'.wire == s.wire[key := fs];
  }

  lemma {:induction false} EpochGrows(fs: seq<Frame>, e: Epoch, buffer: Option<Bytes>)
    requires EpochOk(fs, e) && |e.plains| < |fs|
    requires buffer == BufferAfter(e.start, fs[..|e.plains|])
    ensures var f := fs[|e.plains|];
            var (buffer', outcome) := OnPlaintext(buffer, Plain(f));
            var e' := e.(plains := e.plains + [Plain(f)], delivered := e.delivered + PayloadsOf(outcome));
            EpochOk(fs, e') && buffer' == BufferAfter(e.start, fs[..|e'.plains|])
  {
    var n := |e.plains|;
    assert fs[..n + 1] == fs[..n] + [fs[n]];
    assert Plains(fs[..n + 1]) == Plains(fs[..n]) + [Plain(fs[n])];
    FeedSnoc(e.start, fs[..n], fs[n]);
    OnPlaintextOfFrame(buffer, fs[n]);
  }

  lemma {:induction false} LastEpochReplaced<C>(a: Aead<C>, keys: iset<Key>, wire: map<Key, seq<Frame>>, pool: seq<C>,
                                                epochs: seq<Epoch>, e: Epoch, more: seq<Bytes>)
    requires HistoryOk(a, keys, wire, pool, epochs) && epochs != []
    requires var e0 := epochs[|epochs| - 1];
             e.key == e0.key && e.delivered == e0.delivered + more && EpochOk(At(wire, e.key), e)
    ensures var epochs' := epochs[..|epochs| - 1] + [e];
            && HistoryOk(a, keys, wire, pool, epochs')
            && DeliveredBy(epochs') == DeliveredBy(epochs) + more
  {
    var last := |epochs| - 1;
    var epochs' := epochs[..last] + [e];
    assert epochs'[..last] == epochs[..last];
  }

  lemma {:induction false} DeliverKeepsRest<C>(a: Aead<C>, keys: iset<Key>, s: System<C>, index: nat)
    requires RxOk(s.rx, s.epochs, s.wire) && HistoryOk(a, keys, s.wire, s.pool, s.epochs)
    requires s.trace == DeliveredBy(s.epochs)
    ensures var s' := DoDeliver(a, s, index);
            && RxOk(s'.rx, s'.epochs, s'.wire) && HistoryOk(a, keys, s'.wire, s'.pool, s'.epochs)
            && s'.trace == DeliveredBy(s'.epochs)
  {
    if index < |s.pool| {
      var ct := s.pool[index];
      var plain := DecryptPeer(a, s.rx.session, ct).1;
      ReceiveNonce(a, s.rx, ct);
      if plain.Some? {
        var e := s.epochs[|s.epochs| - 1];
        assert Authentic(a, keys, s.wire, ct);
        assert a.open(e.key, |e.plains|, ct) == plain;
        EpochGrows(At(s.wire, e.key), e, s.rx.buffer);
        var outcome := OnPlaintext(s.rx.buffer, plain.value).1;
        var e' := e.(plains := e.plains + [plain.value], delivered := e.delivered + PayloadsOf(outcome));
        LastEpochReplaced(a, keys, s.wire, s.pool, s.epochs, e', PayloadsOf(outcome));
      }
    }
  }

  lemma {:induction false} DeliverKeepsInv<C>(a: Aead<C>, keys: iset<Key>, s: System<C>, index: nat)
    requires Inv(a, keys, s)
    ensures Inv(a, keys, DoDeliver(a, s, index))
  {
    DeliverKeepsRest(a, keys, s, index);
  }

  lemma {:induction false} EmptyEpochOk(fs: seq<Frame>, e: Epoch)
    requires e.plains == [] && e.delivered == []
    ensures EpochOk(fs, e) && BufferAfter(e.start, fs[..|e.plains|]) == e.start
  {
  }

  lemma {:induction false} EpochAdded<C>(a: Aead<C>, keys: iset<Key>, wire: map<Key, seq<Frame>>, pool: seq<C>,
                                         epochs: seq<Epoch>, e: Epoch)
    requires HistoryOk(a, keys, wire, pool, epochs) && e.key in keys && EpochOk(At(wire, e.key), e)
    requires forall x :: x in epochs ==> x.key != e.key
    ensures HistoryOk(a, keys, wire, pool, epochs + [e])
  {
    hide Authentic, EpochOk;
    assert forall i :: 0 <= i < |epochs| ==> epochs[i] in epochs;
  }

  lemma {:induction false} DeliveredBySnoc(epochs: seq<Epoch>, e: Epoch)
    ensures DeliveredBy(epochs + [e]) == DeliveredBy(epochs) + e.delivered
  {
    assert (epochs + [e])[..|epochs|] == epochs;
  }

  lemma {:induction false} FreshRxOk(session: SessionState, epochs: seq<Epoch>, e: Epoch, wire: map<Key, seq<Frame>>)
    requires session.recv == Some(Cipher(e.key, 0)) && e.plains == []
    ensures RxOk(Rx(Some(session), e.start), epochs + [e], wire)
  {
    EmptyEpochOk(At(wire, e.key), e.(delivered := []));
  }

  lemma {:induction false} RxUpgradeKeepsInv<C>(a: Aead<C>, keys: iset<Key>, s: System<C>, session: SessionState)
    requires Inv(a, keys, s)
    ensures Inv(a, keys, DoRxUpgrade(s, keys, session))
  {
    if FreshRecv(session, keys, s.epochs) {
      hide EpochOk, BufferAfter, DeliveredBy, TxOk, HistoryOk, RxOk, At;
      var e := Epoch(session.recv.value.key, s.rx.buffer, [], []);
      EmptyEpochOk(At(s.wire, e.key), e);
      EpochAdded(a, keys, s.wire, s.pool, s.epochs, e);
      DeliveredBySnoc(s.epochs, e);
      FreshRxOk(session, s.epochs, e, s.wire);
    }
  }

  lemma {:induction false} TxUpgradeKeepsInv<C>(a: Aead<C>, keys: iset<Key>, s: System<C>, session: SessionState)
    requires Inv(a, keys, s) && s.sending.None? && FreshSend(session, keys, s.logs)
    ensures var k := session.send.value.key;
            Inv(a, keys, s.(tx := Some(session), logs := s.logs[k := []], wire := s.wire[k := []]))
  {
    GrowthKeepsHistory(a, keys, s, session.send.value.key, []);
    LogsUpdated(s.logs, s.wire, session.send.value.key, [], []);
  }

  lemma {:induction false} InjectKeepsInv<C>(a: Aead<C>, keys: iset<Key>, s: System<C>, packet: C)
    requires Inv(a, keys, s) && Unforgeable(a, keys, packet)
    ensures Inv(a, keys, s.(pool := s.pool + [packet]))
  {
    PoolGrows(a, keys, s.wire, s.pool, s.epochs, packet);
  }

  lemma {:induction false} EmitKeepsInv<C>(a: Aead<C>, keys: iset<Key>, s: System<C>)
    requires Ideal(a) && Inv(a, keys, s)
    ensures Inv(a, keys, DoEmit(a, s))
  {
    EmitKeepsTx(a, keys, s);
    if s.sending.Some? {
      EmitKeepsRest(a, keys, s);
    }
  }

  lemma {:induction false} NextKeepsInv<C>(a: Aead<C>, keys: iset<Key>, s: System<C>, step: Step<C>)
    requires Ideal(a) && Inv(a, keys, s)
    ensures Inv(a, keys, Next(a, keys, s, step))
  {
    match step
    case Begin(payload) => BeginKeepsInv(a, keys, s, payload);
    case Emit => EmitKeepsInv(a, keys, s);
    case Abort =>
    case TxUpgrade(session) =>
      if s.sending.None? && FreshSend(session, keys, s.logs) {
        TxUpgradeKeepsInv(a, keys, s, session);
      }
    case TxClose =>
    case RxUpgrade(session) => RxUpgradeKeepsInv(a, keys, s, session);
    case RxClose =>
    case Deliver(index) => DeliverKeepsInv(a, keys, s, index);
    case Inject(packet) =>
      if Unforgeable(a, keys, packet) {
        InjectKeepsInv(a, keys, s, packet);
      }
  }

  lemma {:induction false} RunKeepsInv<C>(a: Aead<C>, keys: iset<Key>, buffer: Option<Bytes>, steps: seq<Step<C>>)
    requires Ideal(a)
    ensures Inv(a, keys, Run(a, keys, Init(buffer), steps))
  {
    if steps != [] {
      var before := steps[..|steps| - 1];
      RunKeepsInv(a, keys, buffer, before);
      NextKeepsInv(a, keys, Run(a, keys, Init(buffer), before), steps[|steps| - 1]);
    }
  }

  // ---- Results ----

  /** A session opened a prefix of what was sent under its key and handed on the messages that prefix completes. */
  predicate Accounted(logs: map<Key, seq<Sent>>, e: Epoch) {
    var log := At(logs, e.key);
    && e.plains <= Plains(FramesOf(log))
    && e.delivered == PayloadsAt(log, Positions(log, |e.plains|))
  }

  predicate DistinctKeys(epochs: seq<Epoch>) {
    forall i, j :: 0 <= i < j < |epochs| ==> epochs[i].key != epochs[j].key
  }

  function EpochKeys(epochs: seq<Epoch>): set<Key> {
    set e | e in epochs :: e.key
  }

  /**
    In-session prefix delivery. In every run, the plaintexts a receive session opened are a prefix of the
    frames encrypted under its key, it handed on exactly the deliverable messages that prefix completes,
    in order and once each, and the trace is these deliveries one session after the other. That sessions
    have keys of their own is what FreshRecv asks of them.
  */
  lemma {:induction false} PrefixDelivery<C>(a: Aead<C>, keys: iset<Key>, buffer: Option<Bytes>, steps: seq<Step<C>>)
    requires Ideal(a)
    ensures var s := Run(a, keys, Init(buffer), steps);
            && (forall i :: 0 <= i < |s.epochs| ==> Accounted(s.logs, s.epochs[i]))
            && DistinctKeys(s.epochs)
            && s.trace == DeliveredBy(s.epochs)
  {
    RunKeepsInv(a, keys, buffer, steps);
    var s := Run(a, keys, Init(buffer), steps);
    forall i | 0 <= i < |s.epochs|
      ensures Accounted(s.logs, s.epochs[i])
    {
      EpochDelivers(At(s.logs, s.epochs[i].key), s.epochs[i]);
    }
  }

  lemma {:induction false} EpochDelivers(log: seq<Sent>, e: Epoch)
    requires EpochOk(FramesOf(log), e)
    ensures e.plains <= Plains(FramesOf(log))
    ensures e.delivered == PayloadsAt(log, Positions(log, |e.plains|))
  {
    CompletedExactly(e.start, log, |e.plains|);
  }

  /** A sendAppFrame call is named by the key it sent under and its place among the calls under that key. */
  type Call = (Key, nat)

  /**
    `calls` names, for every payload of the trace, the one call it came from: the payloads agree, the call
    had emitted all its frames, no call is named twice, and calls under one key appear in sending order.
  */
  predicate Explains(logs: map<Key, seq<Sent>>, trace: seq<Bytes>, calls: seq<Call>) {
    Sourced(logs, trace, calls) && InSendingOrder(calls)
  }

  predicate Sourced(logs: map<Key, seq<Sent>>, trace: seq<Bytes>, calls: seq<Call>) {
    && |calls| == |trace|
    && forall i :: 0 <= i < |calls| ==> IsCall(logs, calls[i], trace[i])
  }

  predicate IsCall(logs: map<Key, seq<Sent>>, call: Call, payload: Bytes) {
    && call.1 < |At(logs, call.0)|
    && var sent := At(logs, call.0)[call.1];
    sent.payload == payload && Whole(sent) && Deliverable(sent.payload)
  }

  predicate InSendingOrder(calls: seq<Call>) {
    forall i, j :: 0 <= i < j < |calls| ==>
      calls[i] != calls[j] && (calls[i].0 == calls[j].0 ==> calls[i].1 < calls[j].1)
  }

  function CallsOf(k: Key, at: seq<nat>): (r: seq<Call>)
    ensures |r| == |at|
  {
    seq(|at|, i requires 0 <= i < |at| => (k, at[i]))
  }

  lemma {:induction false} OrderAppend(calls: seq<Call>, k: Key, later: seq<Call>)
    requires InSendingOrder(calls) && InSendingOrder(later)
    requires forall c :: c in calls ==> c.0 != k
    requires forall c :: c in later ==> c.0 == k
    ensures InSendingOrder(calls + later)
  {
    var all := calls + later;
    forall i, j | 0 <= i < j < |all|
      ensures all[i] != all[j] && (all[i].0 == all[j].0 ==> all[i].1 < all[j].1)
    {
      if i < |calls| <= j {
        assert all[i] in calls && all[j] in later;
      } else if j < |calls| {
        assert all[i] == calls[i] && all[j] == calls[j];
      } else {
        assert all[i] == later[i - |calls|] && all[j] == later[j - |calls|];
      }
    }
  }

  lemma {:induction false} ExplainAppend(logs: map<Key, seq<Sent>>, trace: seq<Bytes>, calls: seq<Call>,
                                         more: seq<Bytes>, k: Key, later: seq<Call>)
    requires Explains(logs, trace, calls) && Explains(logs, more, later)
    requires forall c :: c in calls ==> c.0 != k
    requires forall c :: c in later ==> c.0 == k
    ensures Explains(logs, trace + more, calls + later)
  {
    hide IsCall, InSendingOrder;
    OrderAppend(calls, k, later);
  }

  lemma {:induction false} ExplainEpoch(logs: map<Key, seq<Sent>>, e: Epoch) returns (calls: seq<Call>)
    requires Accounted(logs, e)
    ensures Explains(logs, e.delivered, calls)
    ensures forall c :: c in calls ==> c.0 == e.key
  {
    calls := CallsOf(e.key, Positions(At(logs, e.key), |e.plains|));
  }

  lemma {:induction false} ExplainEpochs(logs: map<Key, seq<Sent>>, epochs: seq<Epoch>) returns (calls: seq<Call>)
    requires forall i :: 0 <= i < |epochs| ==> Accounted(logs, epochs[i])
    requires DistinctKeys(epochs)
    ensures Explains(logs, DeliveredBy(epochs), calls)
    ensures forall c :: c in calls ==> c.0 in EpochKeys(epochs)
    decreases |epochs|
  {
    calls := [];
    if epochs != [] {
      var init, e := epochs[..|epochs| - 1], epochs[|epochs| - 1];
      var before := ExplainEpochs(logs, init);
      var later := ExplainEpoch(logs, e);
      assert e.key !in EpochKeys(init);
      ExplainAppend(logs, DeliveredBy(init), before, e.delivered, e.key, later);
      calls := before + later;
      assert EpochKeys(init) <= EpochKeys(epochs) && e.key in EpochKeys(epochs);
    }
  }

  /**
    No mixing. In every run, every payload passed to handleAppFrame is the whole payload of one sendAppFrame
    call, and no call is delivered twice, although replacing the session leaves fragments of the old
    session in the reassembly buffer.
  */
  lemma {:induction false} NoMixing<C>(a: Aead<C>, keys: iset<Key>, buffer: Option<Bytes>, steps: seq<Step<C>>)
    requires Ideal(a)
    ensures var s := Run(a, keys, Init(buffer), steps);
            exists calls :: Explains(s.logs, s.trace, calls)
  {
    PrefixDelivery(a, keys, buffer, steps);
    var s := Run(a, keys, Init(buffer), steps);
    var calls := ExplainEpochs(s.logs, s.epochs);
  }
}
