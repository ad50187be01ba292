/** Relay encapsulation (node/relay_handler.go): wrapping, forwarding and unwrapping a packet over two hops. */
module Relay {
  import opened Base
  import opened Framing
  import opened RelayAuth

  const MODE_FORWARD: byte := 1
  const MODE_TARGET: byte := 2

  type Addr = nat

  /** Printing and resolving UDP addresses. */
  datatype Net = Net(text: Addr -> Bytes, resolve: Bytes -> Option<Addr>)

  /** An address as the tunnel uses them: its text is short and resolves back to it. */
  predicate Printable(net: Net, addr: Addr) {
    |net.text(addr)| <= 255 && net.resolve(net.text(addr)) == Some(addr)
  }

  datatype Settings = Settings(enableRelay: bool, enableAuth: bool, auth: Authenticator, id: Bytes)

  const NO_ID: Bytes := [0, 0, 0, 0, 0, 0, 0, 0, 0, 0, 0, 0, 0, 0, 0, 0]

  /** The encoded token a node attaches, empty when it does not or cannot make one. */
  function TokenBytes(mac: Mac, s: Settings, now: int): Bytes {
    if !s.enableAuth then []
    else
      match Generate(mac, s.auth, s.id, NO_ID, now)
      case None => []
      case Some(token) => RelayAuth.Encode(token)
  }

  function CutToken(token: Bytes): (r: Bytes)
    ensures |r| <= 255
  {
    if |token| > 255 then token[..255] else token
  }

  /** Mode, address length, address, token length, token, inner packet. */
  function Encapsulate(mode: byte, addr: Bytes, token: Bytes, inner: Bytes): (r: Bytes)
    requires |addr| <= 255 && |token| <= 255
    ensures |r| == 3 + |addr| + |token| + |inner|
  {
    [mode, |addr|] + addr + [|token|] + token + inner
  }

  /** buildRelayPacket; None is an error. */
  function RelayPacket(mac: Mac, net: Net, s: Settings, mode: byte, target: Option<Addr>, inner: Bytes,
                       now: int): Option<Bytes> {
    if target.None? || |net.text(target.value)| > 255 then None
    else
      Some(Build(Packet(PACKET_RELAY,
                        Encapsulate(mode, net.text(target.value), CutToken(TokenBytes(mac, s, now)), inner))))
  }

  datatype Envelope = Envelope(mode: byte, addr: Bytes, token: Bytes, inner: Bytes)

  /** The fields of a relay payload; None where it is truncated or carries nothing. */
  function Open(payload: Bytes): Option<Envelope> {
    if |payload| < 3 then None
    else
      var addrLen := payload[1] as int;
      if |payload| < 2 + addrLen + 1 then None
      else
        var offset := 2 + addrLen;
        var tokenLen := payload[offset] as int;
        if |payload| < offset + 1 + tokenLen then None
        else
          var inner := payload[offset + 1 + tokenLen..];
          if |inner| == 0 then None
          else Some(Envelope(payload[0], payload[2..offset], payload[offset + 1..offset + 1 + tokenLen], inner))
  }

  lemma {:induction false} OpenEncapsulated(mode: byte, addr: Bytes, token: Bytes, inner: Bytes)
    requires |addr| <= 255 && |token| <= 255
    ensures Open(Encapsulate(mode, addr, token, inner)) ==
            if |inner| == 0 then None else Some(Envelope(mode, addr, token, inner))
  {
    var p := Encapsulate(mode, addr, token, inner);
    var offset := 2 + |addr|;
    assert p[2..offset] == addr;
    assert p[offset] == |token|;
    assert p[offset + 1..offset + 1 + |token|] == token;
    assert p[offset + 1 + |token|..] == inner;
  }

  /** A payload opens to an envelope exactly when it is the encapsulation of it. */
  lemma {:induction false} OpenExactly(payload: Bytes, e: Envelope)
    ensures Open(payload) == Some(e)
            <==> |e.addr| <= 255 && |e.token| <= 255 && |e.inner| > 0
                 && payload == Encapsulate(e.mode, e.addr, e.token, e.inner)
  {
    if Open(payload) == Some(e) {
      var offset := 2 + |e.addr|;
      assert payload[..2] == [e.mode, |e.addr|];
      assert payload == payload[..2] + payload[2..offset] + [payload[offset]]
                        + payload[offset + 1..offset + 1 + |e.token|] + payload[offset + 1 + |e.token|..];
    } else if |e.addr| <= 255 && |e.token| <= 255 {
      OpenEncapsulated(e.mode, e.addr, e.token, e.inner);
    }
  }

  /** A missing token is let through; a present one must decode and verify. */
  predicate TokenAccepted(mac: Mac, s: Settings, token: Bytes, now: int) {
    s.enableAuth && |token| > 0 ==>
      RelayAuth.Decode(token).Some? && Verify(mac, s.auth, RelayAuth.Decode(token).value, now) == Valid
  }

  /** What handleRelayPacket does, besides its bookkeeping. */
  datatype Action = Drop | Forward(target: Addr, packet: Bytes) | Deliver(inner: Packet)

  function Handle(mac: Mac, net: Net, s: Settings, payload: Bytes, now: int): Action {
    if !s.enableRelay || Open(payload).None? then Drop
    else
      var e := Open(payload).value;
      if !TokenAccepted(mac, s, e.token, now) || net.resolve(e.addr).None? then Drop
      else
        var target := net.resolve(e.addr).value;
        if e.mode == MODE_FORWARD then
          match RelayPacket(mac, net, s, MODE_TARGET, Some(target), e.inner, now)
          case None => Drop
          case Some(packet) => Forward(target, packet)
        else if e.mode == MODE_TARGET then
          match Parse(e.inner)
          case None => Drop
          case Some(packet) => Deliver(packet)
        else Drop
  }

  /** The target whose replies the relay will send back to the packet's origin. */
  function Routed(mac: Mac, net: Net, s: Settings, payload: Bytes, now: int): Option<Addr> {
    if !s.enableRelay || Open(payload).None? then None
    else
      var e := Open(payload).value;
      if e.mode == MODE_FORWARD && TokenAccepted(mac, s, e.token, now) then net.resolve(e.addr) else None
  }

  /** A generated token is 73 bytes, so the 255-byte cut never touches it. */
  lemma {:induction false} TokenNeverCut(mac: Mac, s: Settings, now: int)
    requires MacSized(mac) && |s.id| == ID_SIZE
    ensures CutToken(TokenBytes(mac, s, now)) == TokenBytes(mac, s, now)
    ensures |TokenBytes(mac, s, now)| in {0, TOKEN_HEADER + MAC_SIZE}
  {
  }

  /** Whether the token `from` attaches at t1 passes the check of `to` at t2. */
  predicate Passes(mac: Mac, from: Settings, to: Settings, t1: int, t2: int) {
    to.enableAuth && from.enableAuth && from.auth.sharedKey.Some?
    && |from.auth.sharedKey.value| > 0 && to.auth.enabled ==>
      && -to.auth.ttl <= t2 - t1 <= to.auth.ttl
      && to.auth.sharedKey.Some? && |to.auth.sharedKey.value| > 0
      && var message := Message(from.id, NO_ID, t1);
      mac(to.auth.sharedKey.value, message) == mac(from.auth.sharedKey.value, message)
  }

  lemma {:induction false} PassesIsAccepted(mac: Mac, from: Settings, to: Settings, t1: int, t2: int)
    requires MacSized(mac) && |from.id| == ID_SIZE && Clock(t1) && Clock(t2)
    ensures TokenAccepted(mac, to, CutToken(TokenBytes(mac, from, t1)), t2) <==> Passes(mac, from, to, t1, t2)
  {
    TokenNeverCut(mac, from, t1);
    if from.enableAuth && Generate(mac, from.auth, from.id, NO_ID, t1).Some? {
      var token := Generate(mac, from.auth, from.id, NO_ID, t1).value;
      TokenRoundTrip(token);
      GeneratedAccepted(mac, from.auth, to.auth, from.id, NO_ID, t1, t2);
    }
  }

  /** A relay that gets a Forward packet re-wraps the same inner packet for the target, if the token passes. */
  lemma {:induction false} RelayHop(mac: Mac, net: Net, from: Settings, relay: Settings, target: Addr,
                                    inner: Bytes, t1: int, t2: int)
    requires MacSized(mac) && |from.id| == ID_SIZE && Clock(t1) && Clock(t2) && Printable(net, target) && |inner| > 0
    ensures var sent := Encapsulate(MODE_FORWARD, net.text(target), CutToken(TokenBytes(mac, from, t1)), inner);
            var again := Encapsulate(MODE_TARGET, net.text(target), CutToken(TokenBytes(mac, relay, t2)), inner);
            Handle(mac, net, relay, sent, t2) ==
            if relay.enableRelay && Passes(mac, from, relay, t1, t2)
            then Forward(target, Build(Packet(PACKET_RELAY, again))) else Drop
  {
    OpenEncapsulated(MODE_FORWARD, net.text(target), CutToken(TokenBytes(mac, from, t1)), inner);
    PassesIsAccepted(mac, from, relay, t1, t2);
  }

  /**
    The route back. A relay that gets a Forward packet records the packet's target for its origin exactly when
    it forwards the packet.
  */
  lemma {:induction false} ForwardedIsRouted(mac: Mac, net: Net, from: Settings, relay: Settings, target: Addr,
                                             inner: Bytes, t1: int, t2: int)
    requires MacSized(mac) && |from.id| == ID_SIZE && Clock(t1) && Clock(t2) && Printable(net, target) && |inner| > 0
    ensures var sent := Encapsulate(MODE_FORWARD, net.text(target), CutToken(TokenBytes(mac, from, t1)), inner);
            Routed(mac, net, relay, sent, t2) ==
            if Handle(mac, net, relay, sent, t2).Forward? then Some(target) else None
  {
    OpenEncapsulated(MODE_FORWARD, net.text(target), CutToken(TokenBytes(mac, from, t1)), inner);
  }

  /**
    What a node dispatches from a relay payload, whatever bytes it is: packet p exactly when relaying is on and
    the payload encapsulates the bytes of p in Target mode behind an address that resolves and a token that is
    accepted.
  */
  lemma {:induction false} DeliveredExactly(mac: Mac, net: Net, s: Settings, payload: Bytes, now: int, p: Packet)
    ensures Handle(mac, net, s, payload, now) == Deliver(p)
            <==> s.enableRelay && exists addr, token ::
                   |addr| <= 255 && |token| <= 255 && net.resolve(addr).Some? && TokenAccepted(mac, s, token, now)
                   && payload == Encapsulate(MODE_TARGET, addr, token, Build(p))
  {
    hide Open, Encapsulate, TokenAccepted, Parse, Build;
    if Handle(mac, net, s, payload, now) == Deliver(p) {
      var e := Open(payload).value;
      OpenExactly(payload, e);
      ParseExactly(e.inner, p);
    }
    if addr, token :| |addr| <= 255 && |token| <= 255 && net.resolve(addr).Some? && TokenAccepted(mac, s, token, now)
                      && payload == Encapsulate(MODE_TARGET, addr, token, Build(p)) {
      OpenExactly(payload, Envelope(MODE_TARGET, addr, token, Build(p)));
      ParseExactly(Build(p), p);
    }
  }

  lemma {:induction false} NothingToParse(inner: Bytes)
    requires |inner| == 0
    ensures Parse(inner) == None
  {
  }

  lemma {:induction false} EmptyHop(mac: Mac, net: Net, relay: Settings, addr: Bytes, token: Bytes, t2: int)
    requires |addr| <= 255 && |token| <= 255
    ensures Handle(mac, net, relay, Encapsulate(MODE_FORWARD, addr, token, []), t2) == Drop
  {
    OpenEncapsulated(MODE_FORWARD, addr, token, []);
  }

  lemma {:induction false} TargetHop(mac: Mac, net: Net, relay: Settings, to: Settings, target: Addr, inner: Bytes,
                                     t2: int, t3: int)
    requires MacSized(mac) && |relay.id| == ID_SIZE && Clock(t2) && Clock(t3) && Printable(net, target)
    ensures var sent := Encapsulate(MODE_TARGET, net.text(target), CutToken(TokenBytes(mac, relay, t2)), inner);
            Handle(mac, net, to, sent, t3) ==
            if to.enableRelay && Passes(mac, relay, to, t2, t3) && Parse(inner).Some?
            then Deliver(Parse(inner).value) else Drop
  {
    OpenEncapsulated(MODE_TARGET, net.text(target), CutToken(TokenBytes(mac, relay, t2)), inner);
    PassesIsAccepted(mac, relay, to, t2, t3);
  }

  /** Origin to relay to target: the packet the target hands to handlePacket, if the tunnel carries it. */
  function TwoHops(mac: Mac, net: Net, from: Settings, relay: Settings, to: Settings, target: Addr, inner: Bytes,
                   t1: int, t2: int, t3: int): Option<Packet> {
    match RelayPacket(mac, net, from, MODE_FORWARD, Some(target), inner, t1)
    case None => None
    case Some(first) =>
      match Parse(first)
      case None => None
      case Some(p1) =>
        match Handle(mac, net, relay, p1.payload, t2)
        case Forward(_, second) =>
          (match Parse(second)
           case None => None
           case Some(p2) =>
             match Handle(mac, net, to, p2.payload, t3)
             case Deliver(p) => Some(p)
             case _ => None)
        case _ => None
  }

  /**
    Two-hop transparency. For every inner packet and every printable address, the target dispatches exactly the
    packet the origin wrapped if relaying is enabled at both hops and each hop's token passes, and nothing
    otherwise. What is no TENT packet of at least five bytes is dropped at the target.
  */
  lemma {:induction false} TwoHopTransparency(mac: Mac, net: Net, from: Settings, relay: Settings, to: Settings,
                                              target: Addr,
                                              inner: Bytes, t1: int, t2: int, t3: int)
    requires MacSized(mac) && |from.id| == ID_SIZE && |relay.id| == ID_SIZE
    requires Clock(t1) && Clock(t2) && Clock(t3) && Printable(net, target)
    ensures TwoHops(mac, net, from, relay, to, target, inner, t1, t2, t3) ==
            if relay.enableRelay && to.enableRelay && Passes(mac, from, relay, t1, t2) && Passes(mac, relay, to, t2, t3)
            then Parse(inner) else None
  {
    hide Handle, Parse, Build, Passes;
    var token1, token2 := CutToken(TokenBytes(mac, from, t1)), CutToken(TokenBytes(mac, relay, t2));
    ParseBuild(Packet(PACKET_RELAY, Encapsulate(MODE_FORWARD, net.text(target), token1, inner)));
    if |inner| == 0 {
      EmptyHop(mac, net, relay, net.text(target), token1, t2);
      NothingToParse(inner);
    } else {
      RelayHop(mac, net, from, relay, target, inner, t1, t2);
      ParseBuild(Packet(PACKET_RELAY, Encapsulate(MODE_TARGET, net.text(target), token2, inner)));
      TargetHop(mac, net, relay, to, target, inner, t2, t3);
    }
  }

  /**
    Under a shared password, with relaying on at both hops and each token used within its lifetime, every packet
    arrives as it was sent.
  */
  lemma {:induction false} SharedPasswordRelays(mac: Mac, net: Net, from: Settings, relay: Settings, to: Settings,
                                                target: Addr, p: Packet, t1: int, t2: int, t3: int)
    requires MacSized(mac) && |from.id| == ID_SIZE && |relay.id| == ID_SIZE
    requires Clock(t1) && Clock(t2) && Clock(t3) && Printable(net, target)
    requires relay.enableRelay && to.enableRelay
    requires from.auth.sharedKey == relay.auth.sharedKey == to.auth.sharedKey
    requires -relay.auth.ttl <= t2 - t1 <= relay.auth.ttl && -to.auth.ttl <= t3 - t2 <= to.auth.ttl
    ensures TwoHops(mac, net, from, relay, to, target, Build(p), t1, t2, t3) == Some(p)
  {
    hide TwoHops, Passes, Build, Parse;
    TwoHopTransparency(mac, net, from, relay, to, target, Build(p), t1, t2, t3);
    SharedPasswordPasses(mac, from, relay, t1, t2);
    SharedPasswordPasses(mac, relay, to, t2, t3);
    ParseBuild(p);
  }

  /** Nodes with the same password whose clocks differ by at most the lifetime always pass each other's tokens. */
  lemma {:induction false} SharedPasswordPasses(mac: Mac, from: Settings, to: Settings, t1: int, t2: int)
    requires from.auth.sharedKey == to.auth.sharedKey && -to.auth.ttl <= t2 - t1 <= to.auth.ttl
    ensures Passes(mac, from, to, t1, t2)
  {
  }

  // ---- The handlers as the source runs them ----

  /** Go's copy into a buffer that has room for it. */
  method CopyInto(buffer: array<byte>, offset: nat, src: Bytes)
    requires offset + |src| <= buffer.Length
    modifies buffer
    ensures buffer[..] == old(buffer[..offset]) + src + old(buffer[offset + |src|..])
  {
    for i := 0 to |src|
      invariant buffer[..offset + i] == old(buffer[..offset]) + src[..i]
      invariant buffer[offset + i..] == old(buffer[offset + i..])
    {
      buffer[offset + i] := src[i];
      assert buffer[..offset + i + 1] == buffer[..offset + i] + [src[i]];
    }
    assert src[..|src|] == src;
    assert buffer[..] == buffer[..offset + |src|] + buffer[offset + |src|..];
  }

  /** Fills the payload buffer at a moving offset. */
  method FillPayload(mode: byte, addr: Bytes, token: Bytes, inner: Bytes) returns (payload: Bytes)
    requires |addr| <= 255 && |token| <= 255
    ensures payload == Encapsulate(mode, addr, token, inner)
  {
    var buffer := new byte[2 + |addr| + 1 + |token| + |inner|];
    buffer[0] := mode;
    buffer[1] := |addr|;
    var offset := 2;
    assert buffer[..offset] == [mode, |addr|];
    CopyInto(buffer, offset, addr);
    offset := offset + |addr|;
    CopyInto(buffer, offset, [|token|]);
    offset := offset + 1;
    CopyInto(buffer, offset, token);
    offset := offset + |token|;
    assert buffer[..offset] == [mode, |addr|] + addr + [|token|] + token;
    CopyInto(buffer, offset, inner);
    payload := buffer[..];
    assert payload == buffer[..offset + |inner|];
  }

  class RelayNode {
    const settings: Settings
    const mac: Mac
    const net: Net
    var relayForward: map<Addr, Addr>
    var relayInbound: set<Addr>

    constructor (settings: Settings, mac: Mac, net: Net)
      ensures this.settings == settings && this.mac == mac && this.net == net
      ensures relayForward == map[] && relayInbound == {}
    {
      this.settings, this.mac, this.net := settings, mac, net;
      relayForward, relayInbound := map[], {};
    }

    method BuildRelayPacket(mode: byte, target: Option<Addr>, inner: Bytes, now: int) returns (packet: Option<Bytes>)
      ensures packet == RelayPacket(mac, net, settings, mode, target, inner, now)
    {
      if target.None? {
        return None;
      }
      var addrStr := net.text(target.value);
      if |addrStr| > 255 {
        return None;
      }
      var token: Bytes := [];
      if settings.enableAuth {
        var generated := Generate(mac, settings.auth, settings.id, NO_ID, now);
        if generated.Some? {
          token := RelayAuth.Encode(generated.value);
        }
      }
      if |token| > 255 {
        token := token[..255];
      }
      var payload := FillPayload(mode, addrStr, token, inner);
      return Some(Build(Packet(PACKET_RELAY, payload)));
    }

    /** origin None is a missing sender address. */
    method HandleRelayPacket(origin: Option<Addr>, payload: Bytes, now: int) returns (action: Action)
      modifies this
      ensures action == if origin.None? then Drop else Handle(mac, net, settings, payload, now)
      ensures var routed := if origin.None? then None else Routed(mac, net, settings, payload, now);
              relayForward == if routed.None? then old(relayForward)
                              else old(relayForward)[routed.value := origin.value]
      ensures relayInbound == if action.Deliver? then old(relayInbound) + {origin.value} else old(relayInbound)
    {
      if !settings.enableRelay || origin.None? || |payload| < 3 {
        return Drop;
      }
      var mode, addrLen := payload[0], payload[1] as int;
      if |payload| < 2 + addrLen + 1 {
        return Drop;
      }
      var addrStr, offset := payload[2..2 + addrLen], 2 + addrLen;
      var tokenLen := payload[offset] as int;
      offset := offset + 1;
      if |payload| < offset + tokenLen {
        return Drop;
      }
      var token := payload[offset..offset + tokenLen];
      offset := offset + tokenLen;
      var inner := payload[offset..];
      if |inner| == 0 {
        return Drop;
      }
      assert Open(payload) == Some(Envelope(mode, addrStr, token, inner));
      if settings.enableAuth && tokenLen > 0 {
        var decoded := RelayAuth.Decode(token);
        if decoded.None? {
          return Drop;
        }
        var verdict := Verify(mac, settings.auth, decoded.value, now);
        if verdict != Valid {
          return Drop;
        }
      }
      var target := net.resolve(addrStr);
      if target.None? {
        return Drop;
      }
      if mode == MODE_FORWARD {
        relayForward := relayForward[target.value := origin.value];
        var packet := BuildRelayPacket(MODE_TARGET, target, inner, now);
        return if packet.None? then Drop else Forward(target.value, packet.value);
      }
      if mode == MODE_TARGET {
        if |inner| < 5 || inner[..4] != MAGIC {
          return Drop;
        }
        relayInbound := relayInbound + {origin.value};
        return Deliver(Packet(inner[4], inner[5..]));
      }
      return Drop;
    }
  }
}
