/** The peer list of a discovery response: its encoder and its parser (node/discovery.go). */
module DiscoveryCodec {
  import opened Base

  datatype Known = Known(id: Bytes, addr: Bytes)

  /** Each string has to fit a one-byte length; others are left out of the response. */
  predicate Encodable(k: Known) {
    |k.id| <= 255 && |k.addr| <= 255
  }

  function EncodeEntry(k: Known): (r: Bytes)
    requires Encodable(k)
    ensures |r| == 2 + |k.id| + |k.addr|
  {
    [|k.id|] + k.id + [|k.addr|] + k.addr
  }

  function Kept(ks: seq<Known>): (r: seq<Known>)
    ensures forall i :: 0 <= i < |r| ==> Encodable(r[i])
  {
    if ks == [] then [] else Kept(ks[..|ks| - 1]) + if Encodable(ks[|ks| - 1]) then [ks[|ks| - 1]] else []
  }

  function Body(ks: seq<Known>): Bytes
    requires forall i :: 0 <= i < |ks| ==> Encodable(ks[i])
  {
    if ks == [] then [] else EncodeEntry(ks[0]) + Body(ks[1..])
  }

  lemma {:induction false} BodySnoc(ks: seq<Known>, k: Known)
    requires Encodable(k) && forall i :: 0 <= i < |ks| ==> Encodable(ks[i])
    ensures Body(ks + [k]) == Body(ks) + EncodeEntry(k)
  {
    if ks == [] {
      assert ks + [k] == [k] && [k][1..] == [];
    } else {
      assert (ks + [k])[1..] == ks[1..] + [k];
      BodySnoc(ks[1..], k);
    }
  }

  /** Two count bytes, then the entries. */
  function Encode(ks: seq<Known>): Bytes {
    [|Kept(ks)| / 256 % 256, |Kept(ks)| % 256] + Body(Kept(ks))
  }

  /** A one-byte length and that many bytes at the front of a byte string. */
  function FirstString(body: Bytes): (r: Option<Bytes>)
    ensures r.Some? ==> |r.value| <= 255 && [|r.value|] + r.value <= body
  {
    if |body| < 1 then None
    else
      var n := body[0] as int;
      if |body| < 1 + n then None else Some(body[1..1 + n])
  }

  lemma {:induction false} FirstStringOfEncoded(s: Bytes, rest: Bytes)
    requires |s| <= 255
    ensures FirstString([|s|] + s + rest) == Some(s)
  {
    assert ([|s|] + s + rest)[1..1 + |s|] == s;
  }

  /** The first entry of a byte string, if it holds a whole one. */
  function FirstEntry(body: Bytes): (r: Option<Known>)
    ensures r.Some? ==> Encodable(r.value) && EncodeEntry(r.value) <= body
  {
    var id := FirstString(body);
    if id.None? then None
    else
      var rest := body[1 + |id.value|..];
      var addr := FirstString(rest);
      if addr.None? then None
      else
        PrefixesJoin([|id.value|] + id.value, [|addr.value|] + addr.value, body);
        Some(Known(id.value, addr.value))
  }

  lemma {:induction false} PrefixesJoin(first: Bytes, second: Bytes, body: Bytes)
    requires first <= body && second <= body[|first|..]
    ensures first + second <= body
  {
    assert body == first + body[|first|..];
  }

  lemma {:induction false} FirstEntryOfEncoded(k: Known, rest: Bytes)
    requires Encodable(k)
    ensures FirstEntry(EncodeEntry(k) + rest) == Some(k)
  {
    var tail := [|k.addr|] + k.addr + rest;
    assert EncodeEntry(k) + rest == [|k.id|] + k.id + tail;
    FirstStringOfEncoded(k.id, tail);
    assert ([|k.id|] + k.id + tail)[1 + |k.id|..] == tail;
    FirstStringOfEncoded(k.addr, rest);
  }

  function ParseEntries(body: Bytes, count: nat): (r: seq<Known>)
    ensures |r| <= count
    ensures forall i :: 0 <= i < |r| ==> Encodable(r[i])
  {
    if count == 0 || FirstEntry(body).None? then []
    else
      var k := FirstEntry(body).value;
      [k] + ParseEntries(body[|EncodeEntry(k)|..], count - 1)
  }

  function Parse(payload: Bytes): seq<Known> {
    if |payload| < 2 then [] else ParseEntries(payload[2..], (payload[0] as int) * 256 + payload[1] as int)
  }

  lemma {:induction false} ParseBody(ks: seq<Known>, count: nat)
    requires forall i :: 0 <= i < |ks| ==> Encodable(ks[i])
    ensures ParseEntries(Body(ks), count) == ks[..Min(count, |ks|)]
    decreases |ks|
  {
    hide FirstEntry, EncodeEntry;
    if ks != [] && count > 0 {
      FirstEntryOfEncoded(ks[0], Body(ks[1..]));
      assert Body(ks)[|EncodeEntry(ks[0])|..] == Body(ks[1..]);
      ParseBody(ks[1..], count - 1);
      assert ks[..Min(count, |ks|)] == [ks[0]] + ks[1..][..Min(count - 1, |ks| - 1)];
    }
  }

  /** Parsing an encoded list returns the entries that could be encoded, the count taken modulo 65536. */
  lemma {:induction false} ParseEncoded(ks: seq<Known>)
    ensures Parse(Encode(ks)) == Kept(ks)[..|Kept(ks)| % 65536]
  {
    hide FirstEntry, EncodeEntry;
    var n := |Kept(ks)|;
    assert Encode(ks)[2..] == Body(Kept(ks));
    CountBytes(n);
    ParseBody(Kept(ks), n % 65536);
  }

  /** A list survives encoding and parsing exactly when every entry is encodable and there are fewer than 65536. */
  lemma {:induction false} CodecRoundTrip(ks: seq<Known>)
    ensures Parse(Encode(ks)) == ks <==> (forall i :: 0 <= i < |ks| ==> Encodable(ks[i])) && |ks| < 65536
  {
    hide Parse, Encode;
    ParseEncoded(ks);
    KeptShorter(ks);
    var kept := Kept(ks);
    if forall i :: 0 <= i < |ks| ==> Encodable(ks[i]) {
      KeptAll(ks);
      if |ks| < 65536 {
        assert kept[..|kept|] == kept;
      }
    }
  }

  lemma {:induction false} CountBytes(n: nat)
    ensures (n / 256 % 256) * 256 + n % 256 == n % 65536
  {
  }

  lemma {:induction false} KeptAll(ks: seq<Known>)
    requires forall i :: 0 <= i < |ks| ==> Encodable(ks[i])
    ensures Kept(ks) == ks
  {
    if ks != [] {
      KeptAll(ks[..|ks| - 1]);
    }
  }

  lemma {:induction false} KeptShorter(ks: seq<Known>)
    ensures |Kept(ks)| <= |ks|
  {
    if ks != [] {
      KeptShorter(ks[..|ks| - 1]);
    }
  }

  /**
    On arbitrary bytes the parser returns entries whose encoding is a prefix of what it was given, and it
    stops early only where no whole entry is left.
  */
  lemma {:induction false} ParsedIsPrefix(body: Bytes, count: nat) returns (rest: Bytes)
    ensures body == Body(ParseEntries(body, count)) + rest
    ensures |ParseEntries(body, count)| < count ==> FirstEntry(rest).None?
    decreases count
  {
    hide FirstEntry, EncodeEntry;
    if count == 0 || FirstEntry(body).None? {
      rest := body;
    } else {
      var k := FirstEntry(body).value;
      var after := body[|EncodeEntry(k)|..];
      rest := ParsedIsPrefix(after, count - 1);
      var tail := ParseEntries(after, count - 1);
      assert ([k] + tail)[1..] == tail;
      assert body == EncodeEntry(k) + after;
    }
  }

  /** processDiscoveryRequest: collect what can be encoded, count it, prefix the count. */
  method BuildResponse(ks: seq<Known>) returns (payload: Bytes)
    ensures payload == Encode(ks)
  {
    var entries: Bytes := [];
    var count: int := 0;
    for i := 0 to |ks|
      invariant count == |Kept(ks[..i])| && entries == Body(Kept(ks[..i]))
    {
      assert ks[..i + 1][..i] == ks[..i];
      if |ks[i].id| > 255 || |ks[i].addr| > 255 {
        assert Kept(ks[..i + 1]) == Kept(ks[..i]);
        continue;
      }
      BodySnoc(Kept(ks[..i]), ks[i]);
      entries := entries + ([|ks[i].id|] + ks[i].id + [|ks[i].addr|] + ks[i].addr);
      count := count + 1;
    }
    assert ks[..|ks|] == ks;
    payload := [count / 256 % 256, count % 256] + entries;
  }

  /** One length-prefixed string at an offset. */
  method ReadString(payload: Bytes, offset: nat) returns (s: Option<Bytes>, next: nat)
    requires offset <= |payload|
    ensures s == FirstString(payload[offset..])
    ensures s.Some? ==> next == offset + 1 + |s.value| <= |payload|
  {
    next := offset;
    if offset >= |payload| {
      return None, next;
    }
    var n := payload[offset] as int;
    if offset + 1 + n > |payload| {
      return None, next;
    }
    assert payload[offset..][1..1 + n] == payload[offset + 1..offset + 1 + n];
    return Some(payload[offset + 1..offset + 1 + n]), offset + 1 + n;
  }

  /** One entry at an offset. */
  method ReadEntry(payload: Bytes, offset: nat) returns (entry: Option<Known>, next: nat)
    requires offset <= |payload|
    ensures entry == FirstEntry(payload[offset..])
    ensures entry.Some? ==> next == offset + |EncodeEntry(entry.value)| <= |payload|
  {
    hide FirstString;
    next := offset;
    var peerID, afterID := ReadString(payload, offset);
    if peerID.None? {
      return None, next;
    }
    assert payload[offset..][1 + |peerID.value|..] == payload[afterID..];
    var addr, afterAddr := ReadString(payload, afterID);
    if addr.None? {
      return None, next;
    }
    return Some(Known(peerID.value, addr.value)), afterAddr;
  }

  /** processDiscoveryResponse: walk the payload with an offset, stopping at the first truncated entry. */
  method ParseResponse(payload: Bytes) returns (found: seq<Known>)
    ensures found == Parse(payload)
  {
    hide FirstEntry, EncodeEntry;
    found := [];
    if |payload| < 2 {
      return;
    }
    var count := (payload[0] as int) * 256 + payload[1] as int;
    var offset := 2;
    var i := 0;
    while i < count && offset < |payload|
      invariant 0 <= i <= count && 2 <= offset <= |payload|
      invariant Parse(payload) == found + ParseEntries(payload[offset..], count - i)
      decreases |payload| - offset
    {
      var entry, next := ReadEntry(payload, offset);
      if entry.None? {
        return;
      }
      assert payload[offset..][|EncodeEntry(entry.value)|..] == payload[next..];
      found := found + [entry.value];
      offset := next;
      i := i + 1;
    }
  }
}
