/**
  Cutting a payload into frames and putting it back together: the fragmentation loop of
  node/node_channel.go and the reassembly rules of peer/peer.go and node/data_flow.go, as functions
  on values, with the laws that tie the two sides together.
*/
module Fragmentation {
  import opened Base

  const FRAME_SINGLE: byte := 1
  const FRAME_FIRST: byte := 2
  const FRAME_MIDDLE: byte := 3
  const FRAME_LAST: byte := 4

  const MAX_PAYLOAD := 60 * 1024
  const MAX_REASSEMBLY := 50 * 1024 * 1024

  datatype Frame = Frame(kind: byte, data: Bytes)

  /** The plaintext a frame is encrypted from. */
  function Plain(f: Frame): Bytes {
    [f.kind] + f.data
  }

  // ---- Sender ----

  /** The frames that follow a First frame. */
  function TailFragments(rest: Bytes): (fs: seq<Frame>)
    ensures |fs| > 0
    decreases |rest|
  {
    if |rest| > MAX_PAYLOAD then
      [Frame(FRAME_MIDDLE, rest[..MAX_PAYLOAD])] + TailFragments(rest[MAX_PAYLOAD..])
    else
      [Frame(FRAME_LAST, rest)]
  }

  function Fragments(payload: Bytes): (fs: seq<Frame>)
    ensures |fs| > 0
  {
    if |payload| > MAX_PAYLOAD then
      [Frame(FRAME_FIRST, payload[..MAX_PAYLOAD])] + TailFragments(payload[MAX_PAYLOAD..])
    else
      [Frame(FRAME_SINGLE, payload)]
  }

  function Datas(fs: seq<Frame>): (ds: seq<Bytes>)
    ensures |ds| == |fs|
  {
    seq(|fs|, i requires 0 <= i < |fs| => fs[i].data)
  }

  /** The tail of a payload from an offset on: the next frame and what follows it. */
  lemma {:induction false} TailStep(payload: Bytes, offset: nat, fs: seq<Frame>, i: nat)
    requires offset <= |payload| && i < |fs| && fs[i..] == TailFragments(payload[offset..])
    ensures if |payload| - offset > MAX_PAYLOAD then
              && fs[i] == Frame(FRAME_MIDDLE, payload[offset..offset + MAX_PAYLOAD])
              && i + 1 < |fs| && fs[i + 1..] == TailFragments(payload[offset + MAX_PAYLOAD..])
            else i + 1 == |fs| && fs[i] == Frame(FRAME_LAST, payload[offset..])
  {
    var rest, tail := payload[offset..], fs[i..];
    assert fs[i] == tail[0] && fs[i + 1..] == tail[1..];
    if |rest| > MAX_PAYLOAD {
      assert rest[..MAX_PAYLOAD] == payload[offset..offset + MAX_PAYLOAD];
      assert rest[MAX_PAYLOAD..] == payload[offset + MAX_PAYLOAD..];
    }
  }

  lemma {:induction false} DatasAppend(xs: seq<Frame>, ys: seq<Frame>)
    ensures Datas(xs + ys) == Datas(xs) + Datas(ys)
  {
  }

  lemma {:induction false} TailFragmentsShape(rest: Bytes)
    requires |rest| >= 1
    ensures var fs := TailFragments(rest);
            && |fs| == (|rest| + MAX_PAYLOAD - 1) / MAX_PAYLOAD
            && Concat(Datas(fs)) == rest
            && (forall i :: 0 <= i < |fs| ==> 1 <= |fs[i].data| <= MAX_PAYLOAD)
            && (forall i :: 0 <= i < |fs| - 1 ==> fs[i].kind == FRAME_MIDDLE)
            && fs[|fs| - 1].kind == FRAME_LAST
    decreases |rest|
  {
    var fs := TailFragments(rest);
    if |rest| > MAX_PAYLOAD {
      var tail := rest[MAX_PAYLOAD..];
      TailFragmentsShape(tail);
      DatasAppend([Frame(FRAME_MIDDLE, rest[..MAX_PAYLOAD])], TailFragments(tail));
      assert Datas([Frame(FRAME_MIDDLE, rest[..MAX_PAYLOAD])]) == [rest[..MAX_PAYLOAD]];
      assert Datas(fs)[1..] == Datas(TailFragments(tail));
      assert rest == rest[..MAX_PAYLOAD] + tail;
      assert forall i :: 0 < i < |fs| ==> fs[i] == TailFragments(tail)[i - 1];
    } else {
      assert Datas(fs) == [rest];
      assert Concat([rest]) == rest + Concat([]);
    }
  }

  /**
    A payload (which always holds at least its type byte) becomes ceil(len / MAX_PAYLOAD) non-empty
    frames within the size bound. Their data concatenates to the payload, and only the final frame is of a
    kind that ends a message.
  */
  lemma {:induction false} FragmentsShape(payload: Bytes)
    requires |payload| >= 1
    ensures var fs := Fragments(payload);
            && |fs| == (|payload| + MAX_PAYLOAD - 1) / MAX_PAYLOAD
            && Concat(Datas(fs)) == payload
            && (forall i :: 0 <= i < |fs| ==> 1 <= |fs[i].data| <= MAX_PAYLOAD)
            && (forall i :: 0 <= i < |fs| ==> (fs[i].kind in {FRAME_SINGLE, FRAME_FIRST} <==> i == 0))
            && (forall i :: 0 <= i < |fs| ==> (fs[i].kind in {FRAME_SINGLE, FRAME_LAST} <==> i == |fs| - 1))
  {
    var fs := Fragments(payload);
    if |payload| > MAX_PAYLOAD {
      var head, tail := payload[..MAX_PAYLOAD], payload[MAX_PAYLOAD..];
      TailFragmentsShape(tail);
      assert Datas(fs)[1..] == Datas(TailFragments(tail));
      assert payload == head + tail;
      assert forall i :: 0 < i < |fs| ==> fs[i] == TailFragments(tail)[i - 1];
    } else {
      assert Datas(fs) == [payload];
      assert Concat([payload]) == payload + Concat([]);
    }
  }

  // ---- Receiver ----

  /** One decrypted frame against the reassembly buffer: the new buffer and the payload completed, if any. */
  function Reassemble(buffer: Option<Bytes>, f: Frame): (Option<Bytes>, Option<Bytes>) {
    if f.kind == FRAME_SINGLE then
      (None, Some(f.data))
    else if f.kind == FRAME_FIRST then
      (Some(f.data), None)
    else if f.kind == FRAME_MIDDLE then
      if buffer.None? || |buffer.value| + |f.data| > MAX_REASSEMBLY then (None, None)
      else (Some(buffer.value + f.data), None)
    else if f.kind == FRAME_LAST then
      if buffer.None? || |buffer.value| + |f.data| > MAX_REASSEMBLY then (None, None)
      else (None, Some(buffer.value + f.data))
    else
      (buffer, None)
  }

  /** The reassembly buffer after a list of frames. */
  function BufferAfter(buffer: Option<Bytes>, fs: seq<Frame>): Option<Bytes>
    decreases |fs|
  {
    if fs == [] then buffer else BufferAfter(Reassemble(buffer, fs[0]).0, fs[1..])
  }

  /** The payloads completed by a list of frames, in order. */
  function Completed(buffer: Option<Bytes>, fs: seq<Frame>): seq<Bytes>
    decreases |fs|
  {
    if fs == [] then []
    else
      var (b, done) := Reassemble(buffer, fs[0]);
      ToSeq(done) + Completed(b, fs[1..])
  }

  lemma {:induction false} FeedAppend(buffer: Option<Bytes>, xs: seq<Frame>, ys: seq<Frame>)
    ensures BufferAfter(buffer, xs + ys) == BufferAfter(BufferAfter(buffer, xs), ys)
    ensures Completed(buffer, xs + ys) == Completed(buffer, xs) + Completed(BufferAfter(buffer, xs), ys)
    decreases |xs|
  {
    if xs == [] {
      assert xs + ys == ys;
    } else {
      assert (xs + ys)[1..] == xs[1..] + ys;
      FeedAppend(Reassemble(buffer, xs[0]).0, xs[1..], ys);
    }
  }

  lemma {:induction false} FeedSnoc(buffer: Option<Bytes>, fs: seq<Frame>, f: Frame)
    ensures var (b, done) := Reassemble(BufferAfter(buffer, fs), f);
            && BufferAfter(buffer, fs + [f]) == b
            && Completed(buffer, fs + [f]) == Completed(buffer, fs) + ToSeq(done)
  {
    FeedAppend(buffer, fs, [f]);
    assert [f][1..] == [];
  }

  predicate Deliverable(payload: Bytes) {
    |payload| <= MAX_REASSEMBLY
  }

  /** Without an open message, later fragments are dropped. */
  lemma {:induction false} FeedOrphanTail(rest: Bytes)
    ensures BufferAfter(None, TailFragments(rest)) == None
    ensures Completed(None, TailFragments(rest)) == []
    decreases |rest|
  {
    var fs := TailFragments(rest);
    assert Reassemble(None, fs[0]) == (None, None);
    if |rest| > MAX_PAYLOAD {
      assert fs[1..] == TailFragments(rest[MAX_PAYLOAD..]);
      FeedOrphanTail(rest[MAX_PAYLOAD..]);
    } else {
      assert fs[1..] == [];
    }
  }

  lemma {:induction false} FeedFirst(buffer: Option<Bytes>, fs: seq<Frame>)
    requires fs != []
    ensures var (b, done) := Reassemble(buffer, fs[0]);
            BufferAfter(buffer, fs) == BufferAfter(b, fs[1..])
            && Completed(buffer, fs) == ToSeq(done) + Completed(b, fs[1..])
  {
  }

  lemma {:induction false} TailSplit(rest: Bytes)
    ensures TailFragments(rest) ==
            if |rest| > MAX_PAYLOAD
            then [Frame(FRAME_MIDDLE, rest[..MAX_PAYLOAD])] + TailFragments(rest[MAX_PAYLOAD..])
            else [Frame(FRAME_LAST, rest)]
  {
  }

  lemma {:induction false} FeedMiddle(got: Bytes, data: Bytes, later: seq<Frame>)
    ensures var b := if |got| + |data| > MAX_REASSEMBLY then None else Some(got + data);
            var fs := [Frame(FRAME_MIDDLE, data)] + later;
            && BufferAfter(Some(got), fs) == BufferAfter(b, later)
            && Completed(Some(got), fs) == Completed(b, later)
  {
    var fs := [Frame(FRAME_MIDDLE, data)] + later;
    assert fs[1..] == later;
    FeedFirst(Some(got), fs);
  }

  lemma {:induction false} FeedLast(got: Bytes, data: Bytes)
    ensures BufferAfter(Some(got), [Frame(FRAME_LAST, data)]) == None
    ensures Completed(Some(got), [Frame(FRAME_LAST, data)]) == if Deliverable(got + data) then [got + data] else []
  {
    FeedFirst(Some(got), [Frame(FRAME_LAST, data)]);
  }

  lemma {:induction false} FeedTail(got: Bytes, rest: Bytes)
    ensures BufferAfter(Some(got), TailFragments(rest)) == None
    ensures Completed(Some(got), TailFragments(rest)) == if Deliverable(got + rest) then [got + rest] else []
    decreases |rest|
  {
    hide TailFragments, BufferAfter, Completed, Reassemble;
    TailSplit(rest);
    if |rest| > MAX_PAYLOAD {
      var head, tail := rest[..MAX_PAYLOAD], rest[MAX_PAYLOAD..];
      FeedMiddle(got, head, TailFragments(tail));
      if |got| + |head| > MAX_REASSEMBLY {
        FeedOrphanTail(tail);
      } else {
        FeedTail(got + head, tail);
        assert got + head + tail == got + rest;
      }
    } else {
      FeedLast(got, rest);
    }
  }

  function OnlyDeliverable(payloads: seq<Bytes>): seq<Bytes> {
    if payloads == [] then []
    else (if Deliverable(payloads[0]) then [payloads[0]] else []) + OnlyDeliverable(payloads[1..])
  }

  /**
    Fragmentation round trip. From every reassembly state, the frames of a payload deliver exactly that
    payload if it fits the reassembly limit and nothing if it does not; either way the buffer ends empty,
    so the next message is unaffected.
  */
  lemma {:induction false} FragmentRoundTrip(buffer: Option<Bytes>, payload: Bytes)
    ensures BufferAfter(buffer, Fragments(payload)) == None
    ensures Completed(buffer, Fragments(payload)) == if Deliverable(payload) then [payload] else []
  {
    var fs := Fragments(payload);
    if |payload| > MAX_PAYLOAD {
      assert fs[1..] == TailFragments(payload[MAX_PAYLOAD..]);
      FeedTail(payload[..MAX_PAYLOAD], payload[MAX_PAYLOAD..]);
      assert payload[..MAX_PAYLOAD] + payload[MAX_PAYLOAD..] == payload;
    } else {
      assert fs[1..] == [];
    }
  }

  lemma {:induction false} FeedQuiet(buffer: Option<Bytes>, fs: seq<Frame>)
    requires forall f :: f in fs ==> f.kind == FRAME_FIRST || f.kind == FRAME_MIDDLE
    ensures Completed(buffer, fs) == []
    decreases |fs|
  {
    if fs != [] {
      FeedQuiet(Reassemble(buffer, fs[0]).0, fs[1..]);
    }
  }

  lemma {:induction false} TailFragmentsQuiet(rest: Bytes, n: nat)
    requires n < |TailFragments(rest)|
    ensures forall f :: f in TailFragments(rest)[..n] ==> f.kind == FRAME_MIDDLE
    decreases |rest|
  {
    var fs := TailFragments(rest);
    if |rest| > MAX_PAYLOAD && n > 0 {
      TailFragmentsQuiet(rest[MAX_PAYLOAD..], n - 1);
      assert fs[..n] == [fs[0]] + TailFragments(rest[MAX_PAYLOAD..])[..n - 1];
    }
  }

  /** A message cut short delivers nothing, whatever was in the buffer. */
  lemma {:induction false} TruncatedDeliversNothing(buffer: Option<Bytes>, payload: Bytes, n: nat)
    requires n < |Fragments(payload)|
    ensures Completed(buffer, Fragments(payload)[..n]) == []
  {
    var fs := Fragments(payload);
    if n > 0 && |payload| > MAX_PAYLOAD {
      TailFragmentsQuiet(payload[MAX_PAYLOAD..], n - 1);
      assert fs[..n] == [fs[0]] + TailFragments(payload[MAX_PAYLOAD..])[..n - 1];
      FeedQuiet(buffer, fs[..n]);
    }
  }
}
