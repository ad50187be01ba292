/** The mutable peer of peer/peer.go, proved against the value functions of the other modules. */
module Peers {
  import opened Base
  import opened Noise
  import opened Fragmentation
  import opened Receiver
  import opened Recovery

  /** A network connection, by number. */
  type Conn = nat

  datatype ConnState = Disconnected | Connecting | Handshaking | Connected | Disconnecting

  class Peer {
    var session: Session?
    var transport: string
    var addr: string
    var conn: Option<Conn>
    var lastSeen: int
    var state: ConnState
    var reassembly: Option<Bytes>

    var consecutiveDecryptFails: nat
    var consecutiveRehandshakeFails: nat
    var rehandshakeInFlight: bool
    var rehandshakeBackoff: int
    var rehandshakeNextAttempt: Option<int>
    var rehandshakeWindowStart: Option<int>
    var rehandshakeWindowCount: nat

    ghost function SessionView(): Option<SessionState>
      reads this, session
    {
      if session == null then None else Some(session.State())
    }

    ghost function RxView(): Rx
      reads this, session
    {
      Rx(SessionView(), reassembly)
    }

    ghost function GateView(): Gate
      reads this
    {
      Gate(rehandshakeInFlight, consecutiveDecryptFails, consecutiveRehandshakeFails, rehandshakeBackoff,
                rehandshakeNextAttempt, rehandshakeWindowStart, rehandshakeWindowCount)
    }

    constructor (session: Session, transport: string, addr: string, conn: Option<Conn>, now: int)
      ensures this.session == session && this.transport == transport
      ensures this.addr == addr && this.conn == conn && lastSeen == now && state == Disconnected
      ensures reassembly == None && GateView() == CLEARED
    {
      this.session, this.transport, reassembly := session, transport, None;
      this.addr, this.conn, lastSeen, state := addr, conn, now, Disconnected;
      consecutiveDecryptFails, consecutiveRehandshakeFails, rehandshakeInFlight := 0, 0, false;
      rehandshakeBackoff, rehandshakeNextAttempt := 0, None;
      rehandshakeWindowStart, rehandshakeWindowCount := None, 0;
    }

    // ---- Reassembly ----

    method ResetReassembly()
      modifies this`reassembly
      ensures reassembly == None
    {
      reassembly := None;
    }

    method StartReassembly(frameData: Bytes)
      modifies this`reassembly
      ensures reassembly == Reassemble(old(reassembly), Frame(FRAME_FIRST, frameData)).0
    {
      reassembly := Some(frameData);
    }

    method AppendReassembly(frameData: Bytes, maxSize: int) returns (ok: bool, overflow: bool)
      modifies this`reassembly
      ensures ok == (old(reassembly).Some? && |old(reassembly).value| + |frameData| <= maxSize)
      ensures overflow == (old(reassembly).Some? && !ok)
      ensures reassembly == if ok then Some(old(reassembly).value + frameData) else None
    {
      if reassembly.None? {
        return false, false;
      }
      if |reassembly.value| + |frameData| > maxSize {
        reassembly := None;
        return false, true;
      }
      reassembly := Some(reassembly.value + frameData);
      return true, false;
    }

    method FinishReassembly(frameData: Bytes, maxSize: int) returns (complete: Bytes, ok: bool, overflow: bool)
      modifies this`reassembly
      ensures ok == (old(reassembly).Some? && |old(reassembly).value| + |frameData| <= maxSize)
      ensures overflow == (old(reassembly).Some? && !ok)
      ensures ok ==> complete == old(reassembly).value + frameData
      ensures reassembly == None
    {
      if reassembly.None? {
        return [], false, false;
      }
      if |reassembly.value| + |frameData| > maxSize {
        reassembly := None;
        return [], false, true;
      }
      complete := reassembly.value + frameData;
      reassembly := None;
      return complete, true, false;
    }

    // ---- Session ----

    method Decrypt<C>(a: Aead<C>, ct: C) returns (plain: Option<Bytes>)
      modifies session
      ensures session == old(session)
      ensures (SessionView(), plain) == DecryptPeer(a, old(SessionView()), ct)
    {
      if session == null {
        return None;
      }
      plain := session.Decrypt(a, ct);
    }

    /**
      Replaces transport, address, connection and session and clears the recovery state; a TCP peer refuses any
      other transport. The replaced session is closed, and so is the replaced connection (`closed`) unless it is
      the UDP socket all peers share. Fragments already collected stay in the buffer.
    */
    method UpgradeTransport(newAddr: string, newConn: Option<Conn>, newTransport: string, newSession: Session, now: int)
      returns (closed: Option<Conn>)
      modifies this, session
      ensures reassembly == old(reassembly) && state == old(state)
      ensures var refused := old(transport) == "tcp" && newTransport != "tcp";
              if refused then
                && session == old(session) && SessionView() == old(SessionView())
                && transport == old(transport) && GateView() == old(GateView())
                && addr == old(addr) && conn == old(conn) && lastSeen == old(lastSeen) && closed == None
              else
                && session == newSession && newSession.State() == old(newSession.State())
                && transport == newTransport && GateView() == CLEARED
                && addr == newAddr && conn == newConn && lastSeen == now
                && closed == if old(conn) != newConn && old(transport) != "udp" then old(conn) else None
      ensures session != old(session) && old(session) != null ==> old(session).State() == CLOSED_SESSION
    {
      closed := None;
      if transport == "tcp" && newTransport != "tcp" {
        return;
      }
      if conn.Some? && conn != newConn && transport != "udp" {
        closed := conn;
      }
      if session != null && session != newSession {
        session.Close();
      }
      addr, conn := newAddr, newConn;
      transport := newTransport;
      session := newSession;
      lastSeen := now;
      ClearRecovery();
    }

    /** Drops the session and closes a TCP connection (`closed`). */
    method Close() returns (closed: Option<Conn>)
      modifies this, session
      ensures session == null && GateView() == CLEARED && reassembly == old(reassembly)
      ensures state == Disconnected
      ensures transport == old(transport) && addr == old(addr) && lastSeen == old(lastSeen)
      ensures closed == (if transport == "tcp" then old(conn) else None)
      ensures conn == (if transport == "tcp" then None else old(conn))
      ensures old(session) != null ==> old(session).State() == CLOSED_SESSION
    {
      state := Disconnected;
      closed := None;
      if session != null {
        session.Close();
        session := null;
      }
      if conn.Some? && transport == "tcp" {
        closed := conn;
        conn := None;
      }
      ClearRecovery();
    }

    method ClearRecovery()
      modifies this`consecutiveDecryptFails, this`consecutiveRehandshakeFails, this`rehandshakeInFlight,
               this`rehandshakeBackoff, this`rehandshakeNextAttempt, this`rehandshakeWindowStart,
               this`rehandshakeWindowCount
      ensures GateView() == CLEARED
    {
      consecutiveDecryptFails := 0;
      consecutiveRehandshakeFails := 0;
      rehandshakeBackoff := 0;
      rehandshakeNextAttempt := None;
      rehandshakeWindowStart := None;
      rehandshakeWindowCount := 0;
      rehandshakeInFlight := false;
    }

    // ---- Desync recovery ----

    method IncDecryptFailures() returns (count: nat)
      modifies this`consecutiveDecryptFails
      ensures count == consecutiveDecryptFails == old(consecutiveDecryptFails) + 1
    {
      consecutiveDecryptFails := consecutiveDecryptFails + 1;
      return consecutiveDecryptFails;
    }

    method ResetDecryptFailures()
      modifies this`consecutiveDecryptFails
      ensures consecutiveDecryptFails == 0
    {
      consecutiveDecryptFails := 0;
    }

    method TryBeginRehandshake() returns (begun: bool)
      modifies this`rehandshakeInFlight
      ensures begun == !old(rehandshakeInFlight) && rehandshakeInFlight
    {
      if rehandshakeInFlight {
        return false;
      }
      rehandshakeInFlight := true;
      return true;
    }

    method EndRehandshake()
      modifies this`rehandshakeInFlight
      ensures !rehandshakeInFlight
    {
      rehandshakeInFlight := false;
    }

    method ReserveRehandshakeAttempt(now: int, window: int, maxInWindow: int) returns (allowed: bool, wait: int)
      modifies this`rehandshakeWindowStart, this`rehandshakeWindowCount
      ensures GateView() == Reserve(old(GateView()), now, window, maxInWindow).0
      ensures Reserve(old(GateView()), now, window, maxInWindow).1 == if allowed then Admitted else Refused(wait)
    {
      if rehandshakeNextAttempt.Some? && now < rehandshakeNextAttempt.value {
        return false, rehandshakeNextAttempt.value - now;
      }
      if window > 0 {
        if rehandshakeWindowStart.None? || now - rehandshakeWindowStart.value >= window {
          rehandshakeWindowStart := Some(now);
          rehandshakeWindowCount := 0;
        }
        if maxInWindow > 0 && rehandshakeWindowCount >= maxInWindow {
          wait := rehandshakeWindowStart.value + window - now;
          if wait < 0 {
            wait := 0;
          }
          return false, wait;
        }
      }
      rehandshakeWindowCount := rehandshakeWindowCount + 1;
      return true, 0;
    }

    method RecordRehandshakeFailure(now: int, baseBackoff: int, maxBackoff: int) returns (fails: nat, delay: int)
      modifies this`consecutiveRehandshakeFails, this`rehandshakeBackoff, this`rehandshakeNextAttempt
      ensures GateView() == RecordFailure(old(GateView()), now, baseBackoff, maxBackoff)
      ensures fails == consecutiveRehandshakeFails && delay == rehandshakeBackoff
    {
      var base, max := baseBackoff, maxBackoff;
      if base <= 0 {
        base := SECOND;
      }
      if max > 0 && max < base {
        max := base;
      }
      consecutiveRehandshakeFails := consecutiveRehandshakeFails + 1;
      if rehandshakeBackoff <= 0 {
        rehandshakeBackoff := base;
      } else {
        rehandshakeBackoff := Wrap64(rehandshakeBackoff * 2);
        if rehandshakeBackoff < base {
          rehandshakeBackoff := base;
        }
      }
      if max > 0 && rehandshakeBackoff > max {
        rehandshakeBackoff := max;
      }
      rehandshakeNextAttempt := Some(now + rehandshakeBackoff);
      return consecutiveRehandshakeFails, rehandshakeBackoff;
    }

    method RecordRehandshakeSuccess(now: int, cooldown: int)
      modifies this`consecutiveRehandshakeFails, this`rehandshakeBackoff, this`rehandshakeNextAttempt
      ensures GateView() == RecordSuccess(old(GateView()), now, cooldown)
    {
      consecutiveRehandshakeFails := 0;
      rehandshakeBackoff := 0;
      rehandshakeNextAttempt := if cooldown > 0 then Some(now + cooldown) else None;
    }
  }
}
