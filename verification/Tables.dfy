/**
  The peer store and the address table of a node, as completed handshakes, KCP upgrades, removals and the
  periodic cleanup update them, one handler at a time (node/handshake.go, node/heartbeat.go,
  node/kcp_transport.go).
*/
module Tables {

  type PeerID = string
  type Addr = string

  datatype Link = Link(transport: string, addr: Addr)

  datatype Tables = Tables(peers: map<PeerID, Link>, addrToPeer: map<Addr, PeerID>)

  /** UpgradeTransport on the address part: a TCP peer refuses anything else. */
  function Upgraded(link: Link, addr: Addr, transport: string): Link {
    if link.transport == "tcp" && transport != "tcp" then link else Link(transport, addr)
  }

  /** A handshake with `id` completed from `addr`. A limit that is not positive means none. */
  function OnSession(maxPeers: int, t: Tables, id: PeerID, addr: Addr, transport: string): Tables {
    if id in t.peers then
      var peers' := t.peers[id := Upgraded(t.peers[id], addr, transport)];
      if transport == "tcp" && t.peers[id].transport != "tcp"
      then Tables(peers', t.addrToPeer[addr := id])
      else Tables(peers', t.addrToPeer)
    else if maxPeers > 0 && |t.peers| >= maxPeers then t
    else Tables(t.peers[id := Link(transport, addr)], t.addrToPeer[addr := id])
  }

  /** Sending over KCP maps the peer's UDP address. */
  function OnKcpUpgrade(t: Tables, id: PeerID, addr: Addr): Tables {
    if id in t.peers then t.(addrToPeer := t.addrToPeer[addr := id]) else t
  }

  function Remove(t: Tables, id: PeerID): Tables {
    if id !in t.peers then t
    else Tables(t.peers - {id}, map a | a in t.addrToPeer && t.addrToPeer[a] != id :: t.addrToPeer[a])
  }

  function Cleanup(t: Tables): Tables {
    t.(addrToPeer := map a | a in t.addrToPeer && t.addrToPeer[a] in t.peers :: t.addrToPeer[a])
  }

  datatype Step =
    | Session(id: PeerID, addr: Addr, transport: string)
    | KcpUpgrade(id: PeerID, addr: Addr)
    | Removal(id: PeerID)
    | Sweep

  function Next(maxPeers: int, t: Tables, s: Step): Tables {
    match s
    case Session(id, addr, transport) => OnSession(maxPeers, t, id, addr, transport)
    case KcpUpgrade(id, addr) => OnKcpUpgrade(t, id, addr)
    case Removal(id) => Remove(t, id)
    case Sweep => Cleanup(t)
  }

  function Run(maxPeers: int, steps: seq<Step>): Tables {
    if steps == [] then Tables(map[], map[])
    else Next(maxPeers, Run(maxPeers, steps[..|steps| - 1]), steps[|steps| - 1])
  }

  predicate Consistent(maxPeers: int, t: Tables) {
    && (forall a :: a in t.addrToPeer ==> t.addrToPeer[a] in t.peers)
    && (maxPeers > 0 ==> |t.peers| <= maxPeers)
  }

  lemma {:induction false} AddKeepsConsistent(maxPeers: int, t: Tables, id: PeerID, link: Link, addr: Addr)
    requires Consistent(maxPeers, t)
    requires id in t.peers || maxPeers <= 0 || |t.peers| < maxPeers
    ensures Consistent(maxPeers, Tables(t.peers[id := link], t.addrToPeer))
    ensures Consistent(maxPeers, Tables(t.peers[id := link], t.addrToPeer[addr := id]))
  {
    var peers' := t.peers[id := link];
    assert peers'.Keys == t.peers.Keys + {id};
    assert |peers'| == |peers'.Keys| && |t.peers| == |t.peers.Keys|;
    if id in t.peers {
      assert t.peers.Keys + {id} == t.peers.Keys;
    }
  }

  lemma {:induction false} RemoveKeepsConsistent(maxPeers: int, t: Tables, id: PeerID)
    requires Consistent(maxPeers, t)
    ensures Consistent(maxPeers, Remove(t, id))
  {
    var peers' := t.peers - {id};
    assert peers'.Keys == t.peers.Keys - {id};
    assert |peers'| == |peers'.Keys| && |t.peers| == |t.peers.Keys|;
  }

  lemma {:induction false} NextKeepsConsistent(maxPeers: int, t: Tables, s: Step)
    requires Consistent(maxPeers, t)
    ensures Consistent(maxPeers, Next(maxPeers, t, s))
  {
    match s
    case Session(id, addr, transport) =>
      if id in t.peers {
        AddKeepsConsistent(maxPeers, t, id, Upgraded(t.peers[id], addr, transport), addr);
      } else if maxPeers <= 0 || |t.peers| < maxPeers {
        AddKeepsConsistent(maxPeers, t, id, Link(transport, addr), addr);
      }
    case KcpUpgrade(_, _) =>
    case Removal(id) => RemoveKeepsConsistent(maxPeers, t, id);
    case Sweep =>
  }

  /**
    In every run every mapped address belongs to a stored peer, the peer count stays within the limit, and the
    periodic cleanup therefore finds nothing to clean.
  */
  lemma {:induction false} TablesConsistent(maxPeers: int, steps: seq<Step>)
    ensures Consistent(maxPeers, Run(maxPeers, steps))
    ensures Cleanup(Run(maxPeers, steps)) == Run(maxPeers, steps)
    decreases |steps|
  {
    if steps != [] {
      TablesConsistent(maxPeers, steps[..|steps| - 1]);
      NextKeepsConsistent(maxPeers, Run(maxPeers, steps[..|steps| - 1]), steps[|steps| - 1]);
    }
    var t := Run(maxPeers, steps);
    assert Cleanup(t).addrToPeer == t.addrToPeer;
  }

  /** Which step may change the link of a peer, and which the mapping of an address. */
  predicate TouchesPeer(s: Step, id: PeerID) {
    (s.Session? || s.Removal?) && s.id == id
  }

  predicate TouchesAddr(t: Tables, s: Step, a: Addr) {
    || ((s.Session? || s.KcpUpgrade?) && s.addr == a)
    || (s.Removal? && a in t.addrToPeer && t.addrToPeer[a] == s.id)
  }

  /** A step leaves every other peer and every other address as they were. */
  lemma {:induction false} OthersKept(maxPeers: int, t: Tables, s: Step, id: PeerID, a: Addr)
    requires Consistent(maxPeers, t)
    ensures var t' := Next(maxPeers, t, s);
            && (!TouchesPeer(s, id) ==>
                  (id in t'.peers <==> id in t.peers) && (id in t.peers ==> t'.peers[id] == t.peers[id]))
            && (!TouchesAddr(t, s, a) ==>
                  (a in t'.addrToPeer <==> a in t.addrToPeer)
                  && (a in t.addrToPeer ==> t'.addrToPeer[a] == t.addrToPeer[a]))
  {
  }

  /** A completed handshake stores its peer, with its link, exactly when the peer is known or within the limit. */
  lemma {:induction false} SessionStores(maxPeers: int, t: Tables, id: PeerID, addr: Addr, transport: string)
    ensures var t' := OnSession(maxPeers, t, id, addr, transport);
            && (id in t'.peers <==> id in t.peers || maxPeers <= 0 || |t.peers| < maxPeers)
            && (id in t'.peers ==>
                  t'.peers[id] == if id in t.peers && t.peers[id].transport == "tcp" && transport != "tcp"
                                  then t.peers[id] else Link(transport, addr))
  {
  }

  /** Sending over KCP maps the address of a stored peer. */
  lemma {:induction false} KcpMapsAddress(t: Tables, id: PeerID, addr: Addr)
    requires id in t.peers
    ensures var t' := OnKcpUpgrade(t, id, addr); addr in t'.addrToPeer && t'.addrToPeer[addr] == id
  {
  }

  /** From any tables, cleanup drops exactly the mappings to peers that are not stored. */
  lemma {:induction false} CleanupRepairs(t: Tables)
    ensures Cleanup(t).peers == t.peers
    ensures forall a :: a in Cleanup(t).addrToPeer <==> a in t.addrToPeer && t.addrToPeer[a] in t.peers
    ensures forall a :: a in Cleanup(t).addrToPeer ==> Cleanup(t).addrToPeer[a] == t.addrToPeer[a]
  {
  }

  lemma {:induction false} RunSnoc(maxPeers: int, steps: seq<Step>, s: Step)
    ensures Run(maxPeers, steps + [s]) == Next(maxPeers, Run(maxPeers, steps), s)
  {
    assert (steps + [s])[..|steps|] == steps;
  }

  /** No handshake completes and no KCP upgrade happens at the address. */
  predicate NoneAt(steps: seq<Step>, a: Addr) {
    forall i :: 0 <= i < |steps| && (steps[i].Session? || steps[i].KcpUpgrade?) ==> steps[i].addr != a
  }

  /**
    In every run, a stored peer stays stored, with the same link, until a handshake with it or its removal; and
    a mapped address stays mapped to its peer until a handshake or KCP upgrade at that address or the removal
    of the peer.
  */
  lemma {:induction false} EntriesStay(maxPeers: int, before: seq<Step>, after: seq<Step>, id: PeerID, a: Addr)
    requires forall i :: 0 <= i < |after| ==> !TouchesPeer(after[i], id)
    ensures var t, t' := Run(maxPeers, before), Run(maxPeers, before + after);
            && (id in t.peers ==> id in t'.peers && t'.peers[id] == t.peers[id])
            && (a in t.addrToPeer && t.addrToPeer[a] == id && NoneAt(after, a) ==>
                  a in t'.addrToPeer && t'.addrToPeer[a] == id)
    decreases |after|
  {
    if after == [] {
      assert before + after == before;
    } else {
      var init, last := after[..|after| - 1], after[|after| - 1];
      assert before + after == before + init + [last];
      EntriesStay(maxPeers, before, init, id, a);
      RunSnoc(maxPeers, before + init, last);
      TablesConsistent(maxPeers, before + init);
      OthersKept(maxPeers, Run(maxPeers, before + init), last, id, a);
    }
  }

  /** A step other than a handshake with the peer does not bring an absent peer back. */
  lemma {:induction false} StaysOut(maxPeers: int, t: Tables, s: Step, id: PeerID)
    requires Absent(t, id) && !(s.Session? && s.id == id)
    ensures Absent(Next(maxPeers, t, s), id)
  {
  }

  predicate Absent(t: Tables, id: PeerID) {
    id !in t.peers && forall a :: a in t.addrToPeer ==> t.addrToPeer[a] != id
  }

  /**
    In every run, from the removal of a peer to its next handshake, the peer is not stored and no address is
    mapped to it.
  */
  lemma {:induction false} RemovedStaysOut(maxPeers: int, before: seq<Step>, id: PeerID, after: seq<Step>)
    requires forall i :: 0 <= i < |after| ==> !(after[i].Session? && after[i].id == id)
    ensures Absent(Run(maxPeers, before + [Removal(id)] + after), id)
    decreases |after|
  {
    var steps := before + [Removal(id)] + after;
    if after == [] {
      assert steps[..|steps| - 1] == before;
      TablesConsistent(maxPeers, before);
      RemovalIsComplete(Run(maxPeers, before), id);
    } else {
      var init := after[..|after| - 1];
      assert steps[..|steps| - 1] == before + [Removal(id)] + init;
      RemovedStaysOut(maxPeers, before, id, init);
      StaysOut(maxPeers, Run(maxPeers, steps[..|steps| - 1]), after[|after| - 1], id);
    }
  }

  /** Removal forgets exactly the peer and the addresses mapped to it. */
  lemma {:induction false} RemovalIsComplete(t: Tables, id: PeerID)
    requires forall a :: a in t.addrToPeer ==> t.addrToPeer[a] in t.peers
    ensures var t' := Remove(t, id);
            && id !in t'.peers && t'.peers == t.peers - {id}
            && (forall a :: a in t'.addrToPeer <==> a in t.addrToPeer && t.addrToPeer[a] != id)
            && (forall a :: a in t'.addrToPeer ==> t'.addrToPeer[a] == t.addrToPeer[a])
  {
    assert id !in t.peers ==> t.peers - {id} == t.peers;
  }

  /**
    After a completed handshake data from its address reaches the peer exactly when the peer is new and
    admitted, or moves to TCP, or the address was mapped to it already.
  */
  lemma {:induction false} SessionMapsAddress(maxPeers: int, t: Tables, id: PeerID, addr: Addr, transport: string)
    ensures var t' := OnSession(maxPeers, t, id, addr, transport);
            (addr in t'.addrToPeer && t'.addrToPeer[addr] == id) <==>
            || (id !in t.peers && (maxPeers <= 0 || |t.peers| < maxPeers))
            || (id in t.peers && transport == "tcp" && t.peers[id].transport != "tcp")
            || (addr in t.addrToPeer && t.addrToPeer[addr] == id)
  {
  }

  /**
    A known peer that completes a handshake from a second address: the address is mapped exactly when the peer
    moves to TCP by it. Otherwise it is left unmapped, although the peer's link holds it, unless a TCP peer
    refused another transport and kept its old link.
  */
  lemma {:induction false} MovedPeerUnmapped(maxPeers: int, id: PeerID, a1: Addr, a2: Addr, first: string,
                                             second: string)
    requires maxPeers >= 1 && a1 != a2
    ensures var t := Run(maxPeers, [Session(id, a1, first), Session(id, a2, second)]);
            && id in t.peers
            && (a2 in t.addrToPeer <==> second == "tcp" && first != "tcp")
            && t.peers[id].addr == if first == "tcp" && second != "tcp" then a1 else a2
  {
    var steps := [Session(id, a1, first), Session(id, a2, second)];
    assert steps[..1] == [Session(id, a1, first)] && steps[..1][..0] == [];
    assert Run(maxPeers, steps[..1]) == OnSession(maxPeers, Tables(map[], map[]), id, a1, first);
  }

  class NodeTables {
    const maxPeers: int
    var peers: map<PeerID, Link>
    var addrToPeer: map<Addr, PeerID>

    function View(): Tables
      reads this
    {
      Tables(peers, addrToPeer)
    }

    constructor (maxPeers: int)
      ensures this.maxPeers == maxPeers && View() == Tables(map[], map[])
    {
      this.maxPeers, peers, addrToPeer := maxPeers, map[], map[];
    }

    method HandleExistingPeer(id: PeerID, addr: Addr, transport: string)
      requires id in peers
      modifies this
      ensures View() == OnSession(maxPeers, old(View()), id, addr, transport)
    {
      var known := peers[id];
      peers := peers[id := Upgraded(known, addr, transport)];
      if transport == "tcp" && known.transport != "tcp" {
        addrToPeer := addrToPeer[addr := id];
      }
    }

    method ProcessSession(id: PeerID, addr: Addr, transport: string)
      modifies this
      ensures View() == OnSession(maxPeers, old(View()), id, addr, transport)
    {
      if id in peers {
        HandleExistingPeer(id, addr, transport);
        return;
      }
      if maxPeers > 0 && |peers| >= maxPeers {
        return;
      }
      peers := peers[id := Link(transport, addr)];
      addrToPeer := addrToPeer[addr := id];
    }

    method RemovePeer(id: PeerID)
      modifies this
      ensures View() == Remove(old(View()), id)
    {
      if id !in peers {
        return;
      }
      var addrs := addrToPeer.Keys;
      while addrs != {}
        invariant addrs <= addrToPeer.Keys <= old(addrToPeer).Keys && peers == old(peers)
        invariant forall a :: a in addrToPeer ==>
                    addrToPeer[a] == old(addrToPeer)[a] && (a in addrs || addrToPeer[a] != id)
        invariant forall a :: a in old(addrToPeer) && old(addrToPeer)[a] != id ==> a in addrToPeer
        decreases addrs
      {
        var a :| a in addrs;
        if addrToPeer[a] == id {
          addrToPeer := addrToPeer - {a};
        }
        addrs := addrs - {a};
      }
      peers := peers - {id};
      assert addrToPeer == Remove(old(View()), id).addrToPeer;
    }

    method CleanupStaleMappings()
      modifies this`addrToPeer
      ensures View() == Cleanup(old(View()))
    {
      var addrs := addrToPeer.Keys;
      while addrs != {}
        invariant addrs <= addrToPeer.Keys <= old(addrToPeer).Keys
        invariant forall a :: a in addrToPeer ==>
                    addrToPeer[a] == old(addrToPeer)[a] && (a in addrs || addrToPeer[a] in peers)
        invariant forall a :: a in old(addrToPeer) && old(addrToPeer)[a] in peers ==> a in addrToPeer
        decreases addrs
      {
        var a :| a in addrs;
        if addrToPeer[a] !in peers {
          addrToPeer := addrToPeer - {a};
        }
        addrs := addrs - {a};
      }
      assert addrToPeer == Cleanup(old(View())).addrToPeer;
    }
  }
}
