/**
  The network of module Network can also behave: after any run, two ends that install a new session get every
  message through it when the network delivers each packet once and in order.
*/
module NetworkDelivers {
  import opened Base
  import opened Noise
  import opened Fragmentation
  import opened Receiver
  import opened Network

  /** Both ends stand at the same nonce of key k. */
  predicate InStep<C>(s: System<C>, k: Key) {
    && s.epochs != []
    && SendCipher(s.tx).Some? && SendCipher(s.tx).value.key == k
    && RecvCipher(s.rx) == SendCipher(s.tx)
  }

  lemma {:induction false} RunAppend<C>(a: Aead<C>, keys: iset<Key>, s: System<C>, xs: seq<Step<C>>, ys: seq<Step<C>>)
    ensures Run(a, keys, s, xs + ys) == Run(a, keys, Run(a, keys, s, xs), ys)
    decreases |ys|
  {
    if ys == [] {
      assert xs + ys == xs;
    } else {
      assert (xs + ys)[..|xs + ys| - 1] == xs + ys[..|ys| - 1];
      RunAppend(a, keys, s, xs, ys[..|ys| - 1]);
    }
  }

  lemma {:induction false} RunTwo<C>(a: Aead<C>, keys: iset<Key>, s: System<C>, x: Step<C>, y: Step<C>)
    ensures Run(a, keys, s, [x, y]) == Next(a, keys, Next(a, keys, s, x), y)
  {
    assert [x, y][..1] == [x] && [x][..0] == [];
    assert Run(a, keys, s, [x]) == Next(a, keys, s, x);
  }

  /** The next frame of the message under the lock goes out. */
  lemma {:induction false} FrameOut<C>(a: Aead<C>, s: System<C>, k: Key, payload: Bytes, e: nat)
    requires InStep(s, k) && s.sending == Some(Sent(payload, e)) && e < |Fragments(payload)|
    ensures var s' := DoEmit(a, s);
            var c, fs := SendCipher(s.tx).value, Fragments(payload);
            && s'.pool == s.pool + [a.seal(k, c.nonce, Plain(fs[e]))]
            && SendCipher(s'.tx) == Some(Cipher(k, c.nonce + 1))
            && s'.sending == (if e + 1 == |fs| then None else Some(Sent(payload, e + 1)))
            && s'.rx == s.rx && s'.epochs == s.epochs && s'.trace == s.trace
  {
    hide Fragments, Plain;
  }

  /** The packet the receiver waits for arrives. */
  lemma {:induction false} FrameIn<C>(a: Aead<C>, s: System<C>, index: nat, c: Cipher, f: Frame)
    requires Correct(a) && s.epochs != [] && RecvCipher(s.rx) == Some(c)
    requires index < |s.pool| && s.pool[index] == a.seal(c.key, c.nonce, Plain(f))
    ensures var s' := DoDeliver(a, s, index);
            var (buffer, done) := Reassemble(s.rx.buffer, f);
            && RecvCipher(s'.rx) == Some(Advance(c)) && s'.rx.buffer == buffer
            && s'.trace == s.trace + ToSeq(done)
            && s'.tx == s.tx && s'.sending == s.sending && s'.epochs != []
  {
    hide Reassemble, Plain;
    assert a.open(c.key, c.nonce, s.pool[index]) == Some(Plain(f));
    OnPlaintextOfFrame(s.rx.buffer, f);
  }

  /** One frame sent and delivered. */
  lemma {:induction false} FrameThrough<C>(a: Aead<C>, keys: iset<Key>, s: System<C>, k: Key, payload: Bytes, e: nat)
    requires Correct(a) && InStep(s, k) && s.sending == Some(Sent(payload, e)) && e < |Fragments(payload)|
    ensures var s' := Run(a, keys, s, [Emit, Deliver(|s.pool|)]);
            var (buffer, done) := Reassemble(s.rx.buffer, Fragments(payload)[e]);
            && InStep(s', k)
            && s'.sending == (if e + 1 == |Fragments(payload)| then None else Some(Sent(payload, e + 1)))
            && s'.rx.buffer == buffer && s'.trace == s.trace + ToSeq(done)
  {
    hide Fragments, Plain, Reassemble, DoEmit, DoDeliver;
    RunTwo(a, keys, s, Emit, Deliver(|s.pool|));
    FrameOut(a, s, k, payload, e);
    FrameIn(a, DoEmit(a, s), |s.pool|, SendCipher(s.tx).value, Fragments(payload)[e]);
  }

  /** The rest of the message under the lock, sent and delivered frame by frame. */
  lemma {:induction false} RestThrough<C>(a: Aead<C>, keys: iset<Key>, s: System<C>, k: Key, payload: Bytes, e: nat)
    returns (steps: seq<Step<C>>)
    requires Correct(a) && InStep(s, k) && s.sending == Some(Sent(payload, e)) && e < |Fragments(payload)|
    ensures var s' := Run(a, keys, s, steps);
            var fs := Fragments(payload)[e..];
            && InStep(s', k) && s'.sending.None?
            && s'.rx.buffer == BufferAfter(s.rx.buffer, fs)
            && s'.trace == s.trace + Completed(s.rx.buffer, fs)
    decreases |Fragments(payload)| - e
  {
    hide Fragments, Reassemble, Run, Next, InStep;
    var fs := Fragments(payload);
    FrameThrough(a, keys, s, k, payload, e);
    FeedFirst(s.rx.buffer, fs[e..]);
    assert fs[e..][1..] == fs[e + 1..];
    steps := [Emit, Deliver(|s.pool|)];
    if e + 1 < |fs| {
      var rest := RestThrough(a, keys, Run(a, keys, s, steps), k, payload, e + 1);
      RunAppend(a, keys, s, steps, rest);
      steps := steps + rest;
    }
  }

  lemma {:induction false} BeginIs<C>(a: Aead<C>, keys: iset<Key>, s: System<C>, k: Key, payload: Bytes)
    requires InStep(s, k) && s.sending.None?
    ensures var s' := Run(a, keys, s, [Begin(payload)]);
            InStep(s', k) && s'.sending == Some(Sent(payload, 0)) && s'.rx == s.rx && s'.trace == s.trace
  {
    var steps: seq<Step<C>> := [Begin(payload)];
    assert steps[..0] == [];
    assert Run(a, keys, s, steps) == DoBegin(s, payload);
  }

  /** One message, sent and delivered. */
  lemma {:induction false} MessageThrough<C>(a: Aead<C>, keys: iset<Key>, s: System<C>, k: Key, payload: Bytes)
    returns (steps: seq<Step<C>>)
    requires Correct(a) && InStep(s, k) && s.sending.None?
    ensures var s' := Run(a, keys, s, steps);
            && InStep(s', k) && s'.sending.None?
            && s'.trace == s.trace + if Deliverable(payload) then [payload] else []
  {
    hide Fragments, Run, InStep, Completed, BufferAfter, Deliverable;
    BeginIs(a, keys, s, k, payload);
    var s1 := Run(a, keys, s, [Begin(payload)]);
    SomeFragment(payload);
    var rest := RestThrough(a, keys, s1, k, payload, 0);
    assert Fragments(payload)[0..] == Fragments(payload);
    FragmentRoundTrip(s1.rx.buffer, payload);
    RunAppend(a, keys, s, [Begin(payload)], rest);
    steps := [Begin(payload)] + rest;
  }

  lemma {:induction false} PayloadsThrough<C>(a: Aead<C>, keys: iset<Key>, s: System<C>, k: Key, payloads: seq<Bytes>)
    returns (steps: seq<Step<C>>)
    requires Correct(a) && InStep(s, k) && s.sending.None?
    ensures Run(a, keys, s, steps).trace == s.trace + OnlyDeliverable(payloads)
    decreases |payloads|
  {
    hide Run, Next, InStep, Deliverable;
    steps := [];
    if payloads == [] {
      EmptyRun(a, keys, s);
    } else {
      steps := MessageThrough(a, keys, s, k, payloads[0]);
      var rest := PayloadsThrough(a, keys, Run(a, keys, s, steps), k, payloads[1..]);
      RunAppend(a, keys, s, steps, rest);
      var now := if Deliverable(payloads[0]) then [payloads[0]] else [];
      assert s.trace + now + OnlyDeliverable(payloads[1..]) == s.trace + (now + OnlyDeliverable(payloads[1..]));
      steps := steps + rest;
    }
  }

  lemma {:induction false} EmptyRun<C>(a: Aead<C>, keys: iset<Key>, s: System<C>)
    ensures Run(a, keys, s, []) == s
  {
  }

  lemma {:induction false} SomeFragment(payload: Bytes)
    ensures |Fragments(payload)| > 0
  {
  }

  /**
    The powers of the network and of the ends in every state: replacing or closing the receive session keeps what
    has been collected, an abort frees the send lock, a packet that opens under no key can be injected, and any
    packet seen can be delivered any number of times.
  */
  lemma {:induction false} Powers<C>(a: Aead<C>, keys: iset<Key>, s: System<C>, session: SessionState, packet: C, i: nat)
    ensures FreshRecv(session, keys, s.epochs) ==>
              Next(a, keys, s, RxUpgrade(session)).rx == Rx(Some(session), s.rx.buffer)
    ensures Next(a, keys, s, RxClose).rx == Rx(None, s.rx.buffer)
    ensures Next(a, keys, s, Abort) == s.(sending := None)
    ensures s.sending.None? ==> Next(a, keys, s, TxClose) == s.(tx := None)
    ensures Unforgeable(a, keys, packet) ==> Next(a, keys, s, Inject(packet)).pool == s.pool + [packet]
    ensures i < |s.pool| ==>
              var s' := Next(a, keys, s, Deliver(i));
              s'.rx == Receive(a, s.rx, s.pool[i]).0 && s'.pool == s.pool
  {
  }

  /** Installing a session at both ends brings them in step. */
  lemma {:induction false} Installed<C>(a: Aead<C>, keys: iset<Key>, s: System<C>, tx: SessionState, rx: SessionState)
    requires s.sending.None? && FreshSend(tx, keys, s.logs) && FreshRecv(rx, keys, s.epochs)
    requires tx.send == rx.recv
    ensures var s' := Run(a, keys, s, [TxUpgrade(tx), RxUpgrade(rx)]);
            InStep(s', tx.send.value.key) && s'.sending.None? && s'.trace == s.trace
  {
    RunTwo(a, keys, s, TxUpgrade(tx), RxUpgrade(rx));
  }

  /**
    After any run, over a session installed at both ends, some behaviour of the network delivers every list of
    payloads, in order, without the ones over the reassembly limit.
  */
  lemma {:induction false} NetworkLetsThrough<C>(a: Aead<C>, keys: iset<Key>, buffer: Option<Bytes>,
                                                 steps: seq<Step<C>>, tx: SessionState, rx: SessionState,
                                                 payloads: seq<Bytes>) returns (more: seq<Step<C>>)
    requires Correct(a)
    requires var s := Run(a, keys, Init(buffer), steps);
             s.sending.None? && FreshSend(tx, keys, s.logs) && FreshRecv(rx, keys, s.epochs) && tx.send == rx.recv
    ensures Run(a, keys, Init(buffer), steps + [TxUpgrade(tx), RxUpgrade(rx)] + more).trace ==
            Run(a, keys, Init(buffer), steps).trace + OnlyDeliverable(payloads)
  {
    hide Run, FreshSend, FreshRecv;
    var s := Run(a, keys, Init(buffer), steps);
    var install: seq<Step<C>> := [TxUpgrade(tx), RxUpgrade(rx)];
    assert tx.send.Some? by {
      HasSend(tx, keys, s.logs);
    }
    Installed(a, keys, s, tx, rx);
    more := PayloadsThrough(a, keys, Run(a, keys, s, install), tx.send.value.key, payloads);
    RunAppend(a, keys, Init(buffer), steps, install);
    RunAppend(a, keys, Init(buffer), steps + install, more);
  }

  lemma {:induction false} HasSend(tx: SessionState, keys: iset<Key>, logs: map<Key, seq<Sent>>)
    requires FreshSend(tx, keys, logs)
    ensures tx.send.Some?
  {
  }
}
