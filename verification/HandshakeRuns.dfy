/**
  Any number of handshakes at once over a hostile network (crypto/noise.go): every party draws a fresh
  contribution for each message it writes, the network delivers any written message to any party any number of
  times and makes up first messages, which nothing protects. It cannot make up later messages: these are bound
  to the network secret and to everything exchanged before.
*/
module HandshakeRuns {
  import opened Base
  import opened Noise
  import opened Handshake

  /** One handshake state with the session it handed out, if any. */
  datatype Party = Party(state: State, session: Option<SessionState>)

  datatype System = System(parties: seq<Party>, pool: seq<Msg>, used: set<nat>)

  datatype Step =
    | Initiate(first: nat)
    | Respond
    | Deliver(party: nat, index: nat, body: nat)
    | MakeUp(madeUp: nat)

  function DoInitiate(s: System, body: nat): System {
    if body in s.used then s
    else
      var (state, msg) := NewInitiator(body);
      System(s.parties + [Party(state, None)], s.pool + [msg], s.used + {body})
  }

  function DoDeliver(split: Split, s: System, party: nat, index: nat, body: nat): System {
    if party >= |s.parties| || index >= |s.pool| || body in s.used then s
    else
      var p := s.parties[party];
      var (state, reply) := Process(split, p.state, s.pool[index], body);
      if reply.Error? then s
      else
        System(s.parties[party := Party(state, if reply.session.Some? then reply.session else p.session)],
               s.pool + ToSeq(reply.response), s.used + {body})
  }

  /** One step; a step that is not enabled leaves the system as it is. */
  function Next(split: Split, s: System, step: Step): System {
    match step
    case Initiate(body) => DoInitiate(s, body)
    case Respond => s.(parties := s.parties + [Party(NEW_RESPONDER, None)])
    case Deliver(party, index, body) => DoDeliver(split, s, party, index, body)
    case MakeUp(body) => s.(pool := s.pool + [Msg([], body)])
  }

  function Run(split: Split, steps: seq<Step>): System {
    if steps == [] then System([], [], {})
    else Next(split, Run(split, steps[..|steps| - 1]), steps[|steps| - 1])
  }

  // ---- Invariant ----

  /** A party is where its transcript says, and has a session exactly when that is complete. */
  predicate PartyOk(split: Split, p: Party) {
    && |p.state.transcript| in (if p.state.initiator then {1, 3} else {0, 2, 3})
    && (p.state.completed <==> |p.state.transcript| == 3)
    && p.session == if p.state.completed then Some(SessionOf(split, p.state)) else None
  }

  /** The contribution that tells a party apart from the others in its role. */
  function Mark(s: State): Option<nat> {
    if s.initiator then if |s.transcript| > 0 then Some(s.transcript[0]) else None
    else if |s.transcript| > 1 then Some(s.transcript[1]) else None
  }

  predicate Apart(s: State, t: State) {
    s.initiator == t.initiator && Mark(s).Some? ==> Mark(s) != Mark(t)
  }

  predicate MarksOk(parties: seq<Party>, used: set<nat>) {
    && (forall i :: 0 <= i < |parties| && Mark(parties[i].state).Some? ==> Mark(parties[i].state).value in used)
    && (forall i, j :: 0 <= i < |parties| && 0 <= j < |parties| && i != j ==> Apart(parties[i].state, parties[j].state))
  }

  /** Some initiator finished with this transcript. */
  predicate Finished(parties: seq<Party>, transcript: seq<nat>) {
    exists i :: 0 <= i < |parties| && parties[i].state.initiator && parties[i].state.transcript == transcript
  }

  /** Every third message, and so every completed responder, goes back to an initiator with the same transcript. */
  predicate SourcesOk(parties: seq<Party>, pool: seq<Msg>) {
    && (forall m :: m in pool && |m.prior| == 2 ==> Finished(parties, m.prior + [m.body]))
    && (forall p :: p in parties && !p.state.initiator && |p.state.transcript| == 3
          ==> Finished(parties, p.state.transcript))
  }

  predicate Inv(split: Split, s: System) {
    && (forall p :: p in s.parties ==> PartyOk(split, p))
    && MarksOk(s.parties, s.used)
    && SourcesOk(s.parties, s.pool)
  }

  // ---- A new party ----

  lemma {:induction false} FinishedStays(parties: seq<Party>, p: Party, transcript: seq<nat>)
    requires Finished(parties, transcript)
    ensures Finished(parties + [p], transcript)
  {
    var i :| 0 <= i < |parties| && parties[i].state.initiator && parties[i].state.transcript == transcript;
    assert (parties + [p])[i] == parties[i];
  }

  lemma {:induction false} JoinKeepsSources(parties: seq<Party>, pool: seq<Msg>, p: Party)
    requires SourcesOk(parties, pool) && |p.state.transcript| < 3
    ensures SourcesOk(parties + [p], pool)
  {
    forall t: seq<nat> | Finished(parties, t)
      ensures Finished(parties + [p], t)
    {
      FinishedStays(parties, p, t);
    }
  }

  lemma {:induction false} JoinKeepsMarks(parties: seq<Party>, used: set<nat>, p: Party)
    requires MarksOk(parties, used)
    requires Mark(p.state).Some? ==> Mark(p.state).value !in used
    ensures MarksOk(parties + [p], used + if Mark(p.state).Some? then {Mark(p.state).value} else {})
  {
    var more := parties + [p];
    forall i, j | 0 <= i < |more| && 0 <= j < |more| && i != j
      ensures Apart(more[i].state, more[j].state)
    {
      if i < |parties| && j < |parties| {
        assert Apart(parties[i].state, parties[j].state);
      }
    }
  }

  lemma {:induction false} MessageKeepsSources(parties: seq<Party>, pool: seq<Msg>, m: Msg)
    requires SourcesOk(parties, pool) && (|m.prior| == 2 ==> Finished(parties, m.prior + [m.body]))
    ensures SourcesOk(parties, pool + [m])
  {
    hide Finished;
  }

  lemma {:induction false} JoinKeepsInv(split: Split, s: System, p: Party, used: set<nat>)
    requires Inv(split, s) && PartyOk(split, p) && |p.state.transcript| < 3
    requires Mark(p.state).Some? ==> Mark(p.state).value !in s.used
    requires used == s.used + if Mark(p.state).Some? then {Mark(p.state).value} else {}
    ensures Inv(split, System(s.parties + [p], s.pool, used))
  {
    hide PartyOk, Mark, MarksOk, SourcesOk;
    JoinKeepsMarks(s.parties, s.used, p);
    JoinKeepsSources(s.parties, s.pool, p);
  }

  // ---- A delivered message ----

  /** What a message that is not an error does to a party. */
  lemma {:induction false} ProcessShape(split: Split, p: Party, m: Msg, body: nat)
    requires PartyOk(split, p) && Process(split, p.state, m, body).1.Reply?
    ensures var (state, reply) := Process(split, p.state, m, body);
            && PartyOk(split, Party(state, if reply.session.Some? then reply.session else p.session))
            && |p.state.transcript| < 3 && state.initiator == p.state.initiator
            && (state.initiator ==> |state.transcript| == 3)
            && (Mark(state) == Mark(p.state) || (Mark(p.state).None? && Mark(state) == Some(body)))
            && (!state.initiator && |state.transcript| == 3 ==>
                  |m.prior| == 2 && state.transcript == m.prior + [m.body])
            && (reply.response.Some? && |reply.response.value.prior| == 2 ==>
                  state.initiator && state.transcript == reply.response.value.prior + [reply.response.value.body])
  {
  }

  /** A party that has not finished is replaced: what others finished with stays. */
  lemma {:induction false} FinishedStaysUpdated(parties: seq<Party>, i: nat, p: Party, transcript: seq<nat>)
    requires i < |parties| && |parties[i].state.transcript| < 3 == |transcript| && Finished(parties, transcript)
    ensures Finished(parties[i := p], transcript)
  {
    var j :| 0 <= j < |parties| && parties[j].state.initiator && parties[j].state.transcript == transcript;
    assert parties[i := p][j] == parties[j];
  }

  lemma {:induction false} UpdateKeepsSources(parties: seq<Party>, pool: seq<Msg>, i: nat, p: Party)
    requires SourcesOk(parties, pool) && i < |parties| && |parties[i].state.transcript| < 3
    requires !p.state.initiator && |p.state.transcript| == 3 ==> Finished(parties, p.state.transcript)
    ensures SourcesOk(parties[i := p], pool)
  {
    forall t: seq<nat> | |t| == 3 && Finished(parties, t)
      ensures Finished(parties[i := p], t)
    {
      FinishedStaysUpdated(parties, i, p, t);
    }
    forall q | q in parties[i := p] && !q.state.initiator && |q.state.transcript| == 3
      ensures Finished(parties, q.state.transcript)
    {
      assert q == p || q in parties;
    }
  }

  lemma {:induction false} UpdateKeepsMarks(parties: seq<Party>, used: set<nat>, i: nat, p: Party, body: nat)
    requires MarksOk(parties, used) && i < |parties| && body !in used
    requires p.state.initiator == parties[i].state.initiator
    requires Mark(p.state) == Mark(parties[i].state) || (Mark(parties[i].state).None? && Mark(p.state) == Some(body))
    ensures MarksOk(parties[i := p], used + {body})
  {
    var more := parties[i := p];
    forall j, k | 0 <= j < |more| && 0 <= k < |more| && j != k
      ensures Apart(more[j].state, more[k].state)
    {
      assert Apart(parties[j].state, parties[k].state);
    }
  }

  lemma {:induction false} DeliverKeepsInv(split: Split, s: System, party: nat, index: nat, body: nat)
    requires Inv(split, s)
    ensures Inv(split, DoDeliver(split, s, party, index, body))
  {
    if party < |s.parties| && index < |s.pool| && body !in s.used {
      hide Process, PartyOk, Mark, MarksOk, SourcesOk, Finished;
      var p, m := s.parties[party], s.pool[index];
      var (state, reply) := Process(split, p.state, m, body);
      assert p in s.parties && m in s.pool;
      if reply.Reply? {
        var p' := Party(state, if reply.session.Some? then reply.session else p.session);
        var parties := s.parties[party := p'];
        ProcessShape(split, p, m, body);
        UpdateKeepsMarks(s.parties, s.used, party, p', body);
        ThirdMessageFinished(s.parties, s.pool, m);
        UpdateKeepsSources(s.parties, s.pool, party, p');
        if reply.response.Some? {
          ItselfFinished(parties, party);
          MessageKeepsSources(parties, s.pool, reply.response.value);
        }
      }
    }
  }

  lemma {:induction false} ThirdMessageFinished(parties: seq<Party>, pool: seq<Msg>, m: Msg)
    requires SourcesOk(parties, pool) && m in pool
    ensures |m.prior| == 2 ==> Finished(parties, m.prior + [m.body])
  {
  }

  lemma {:induction false} ItselfFinished(parties: seq<Party>, i: nat)
    requires i < |parties|
    ensures parties[i].state.initiator ==> Finished(parties, parties[i].state.transcript)
  {
  }

  lemma {:induction false} NextKeepsInv(split: Split, s: System, step: Step)
    requires Inv(split, s)
    ensures Inv(split, Next(split, s, step))
  {
    match step
    case Initiate(body) =>
      if body !in s.used {
        var (state, msg) := NewInitiator(body);
        JoinKeepsInv(split, s, Party(state, None), s.used + {body});
        MessageKeepsSources(s.parties + [Party(state, None)], s.pool, msg);
      }
    case Respond =>
      assert s.used + {} == s.used;
      JoinKeepsInv(split, s, Party(NEW_RESPONDER, None), s.used);
    case Deliver(party, index, body) => DeliverKeepsInv(split, s, party, index, body);
    case MakeUp(body) => MessageKeepsSources(s.parties, s.pool, Msg([], body));
  }

  lemma {:induction false} RunKeepsInv(split: Split, steps: seq<Step>)
    ensures Inv(split, Run(split, steps))
    decreases |steps|
  {
    if steps != [] {
      RunKeepsInv(split, steps[..|steps| - 1]);
      NextKeepsInv(split, Run(split, steps[..|steps| - 1]), steps[|steps| - 1]);
    }
  }

  // ---- Results ----

  predicate AllDifferent(a: nat, b: nat, c: nat, d: nat) {
    a != b && a != c && a != d && b != c && b != d && c != d
  }

  /** What a delivery that is not an error makes of the system. */
  lemma {:induction false} DeliverIs(split: Split, s: System, party: nat, index: nat, body: nat, state: State,
                                     reply: Reply)
    requires party < |s.parties| && index < |s.pool| && body !in s.used && reply.Reply?
    requires Process(split, s.parties[party].state, s.pool[index], body) == (state, reply)
    ensures var session := if reply.session.Some? then reply.session else s.parties[party].session;
            Next(split, s, Deliver(party, index, body)) ==
            System(s.parties[party := Party(state, session)], s.pool + ToSeq(reply.response), s.used + {body})
  {
    hide Process;
  }

  /** The three messages of an exchange. */
  lemma {:induction false} Messages(split: Split, e1: nat, e2: nat, e3: nat, e4: nat)
    ensures Process(split, NEW_RESPONDER, Msg([], e1), e2) ==
            (State(false, [e1, e2], false), Reply(Some(Msg([e1], e2)), None))
    ensures Process(split, State(true, [e1], false), Msg([e1], e2), e3) ==
            (State(true, [e1, e2, e3], true),
             Reply(Some(Msg([e1, e2], e3)), Some(SessionOf(split, State(true, [e1, e2, e3], true)))))
    ensures Process(split, State(false, [e1, e2], false), Msg([e1, e2], e3), e4) ==
            (State(false, [e1, e2, e3], true), Reply(None, Some(SessionOf(split, State(false, [e1, e2, e3], true)))))
  {
    assert [] + [e1] == [e1] && [e1] + [e2] == [e1, e2] && [e1, e2] + [e3] == [e1, e2, e3];
  }

  /**
    The network can let an exchange through: after any run, an initiator and a responder that join complete in
    three deliveries, with mirrored sessions.
  */
  lemma {:induction false} ExchangeGoesThrough(split: Split, steps: seq<Step>, e1: nat, e2: nat, e3: nat, e4: nat)
    requires AllDifferent(e1, e2, e3, e4) && Run(split, steps).used !! {e1, e2, e3, e4}
    ensures var n, m := |Run(split, steps).parties|, |Run(split, steps).pool|;
            var more := [Initiate(e1), Respond,
                         Deliver(n + 1, m, e2), Deliver(n, m + 1, e3), Deliver(n + 1, m + 2, e4)];
            var ps := Run(split, steps + more).parties;
            && |ps| == n + 2 && ps[n].session.Some? && ps[n + 1].session.Some?
            && Mirrored(ps[n].session.value, ps[n + 1].session.value)
  {
    hide Process, DoDeliver, Run;
    var s0 := Run(split, steps);
    var n, m := |s0.parties|, |s0.pool|;
    Messages(split, e1, e2, e3, e4);
    var s1 := Next(split, s0, Initiate(e1));
    var s2 := Next(split, s1, Respond);
    DeliverIs(split, s2, n + 1, m, e2, State(false, [e1, e2], false), Reply(Some(Msg([e1], e2)), None));
    var s3 := Next(split, s2, Deliver(n + 1, m, e2));
    var i3, r3 := State(true, [e1, e2, e3], true), State(false, [e1, e2, e3], true);
    DeliverIs(split, s3, n, m + 1, e3, i3, Reply(Some(Msg([e1, e2], e3)), Some(SessionOf(split, i3))));
    var s4 := Next(split, s3, Deliver(n, m + 1, e3));
    DeliverIs(split, s4, n + 1, m + 2, e4, r3, Reply(None, Some(SessionOf(split, r3))));
    RunFive(split, steps, Initiate(e1), Respond,
            Deliver(n + 1, m, e2), Deliver(n, m + 1, e3), Deliver(n + 1, m + 2, e4));
  }

  lemma {:induction false} RunFive(split: Split, steps: seq<Step>, a: Step, b: Step, c: Step, d: Step, e: Step)
    ensures Run(split, steps + [a, b, c, d, e]) ==
            Next(split, Next(split, Next(split, Next(split, Next(split, Run(split, steps), a), b), c), d), e)
  {
    hide Run, Next;
    RunSnoc(split, steps, a);
    RunSnoc(split, steps + [a], b);
    assert steps + [a, b] == steps + [a] + [b];
    RunSnoc(split, steps + [a, b], c);
    assert steps + [a, b, c] == steps + [a, b] + [c];
    RunSnoc(split, steps + [a, b, c], d);
    assert steps + [a, b, c, d] == steps + [a, b, c] + [d];
    RunSnoc(split, steps + [a, b, c, d], e);
    assert steps + [a, b, c, d, e] == steps + [a, b, c, d] + [e];
  }

  lemma {:induction false} RunSnoc(split: Split, steps: seq<Step>, e: Step)
    ensures Run(split, steps + [e]) == Next(split, Run(split, steps), e)
  {
    assert (steps + [e])[..|steps|] == steps;
  }

  /** Different transcripts give different keys, and the two keys of a transcript differ. */
  ghost predicate KeysApart(split: Split) {
    && (forall s, t :: split(s).0 == split(t).0 ==> s == t)
    && (forall s, t :: split(s).1 == split(t).1 ==> s == t)
    && (forall s, t :: split(s).0 != split(t).1)
  }

  /** Keys named by direction and transcript are apart, so results that ask for it are not vacuous. */
  lemma {:induction false} SymbolicKeysApart()
    ensures KeysApart((t: seq<nat>) => (Key(true, t), Key(false, t)))
  {
  }

  /**
    Mirrored sessions. In every run, each responder that completed has exactly one initiator that completed with
    the same transcript, and their sessions are mirror images.
  */
  lemma {:induction false} SessionsMirrored(split: Split, steps: seq<Step>, r: nat) returns (i: nat)
    requires var ps := Run(split, steps).parties;
             r < |ps| && !ps[r].state.initiator && ps[r].session.Some?
    ensures var ps := Run(split, steps).parties;
            && i < |ps| && ps[i].state.initiator && ps[i].session.Some?
            && Mirrored(ps[i].session.value, ps[r].session.value)
            && ps[i].state.transcript == ps[r].state.transcript
            && forall j :: 0 <= j < |ps| && ps[j].state.initiator && ps[j].state.transcript == ps[r].state.transcript
                 ==> j == i
  {
    RunKeepsInv(split, steps);
    var ps := Run(split, steps).parties;
    var t := ps[r].state.transcript;
    assert ps[r] in ps;
    assert Finished(ps, t);
    i :| 0 <= i < |ps| && ps[i].state.initiator && ps[i].state.transcript == t;
    assert ps[i] in ps;
  }

  /**
    Fresh keys. In every run, two sessions never send under the same key and never receive under the same key,
    and no session sends under its own receive key; all start at nonce zero. This is what a tunnel takes for
    granted of the sessions it installs.
  */
  lemma {:induction false} SessionKeysFresh(split: Split, steps: seq<Step>, x: nat, y: nat)
    requires KeysApart(split)
    requires var ps := Run(split, steps).parties;
             x < |ps| && y < |ps| && ps[x].session.Some? && ps[y].session.Some?
    ensures var ps := Run(split, steps).parties;
            var s, s' := ps[x].session.value, ps[y].session.value;
            && s.send.Some? && s.recv.Some? && s'.send.Some? && s'.recv.Some?
            && s.send.value.nonce == s.recv.value.nonce == 0
            && s.send.value.key != s.recv.value.key
            && (x != y ==> s.send.value.key != s'.send.value.key && s.recv.value.key != s'.recv.value.key)
  {
    RunKeepsInv(split, steps);
    var ps := Run(split, steps).parties;
    assert ps[x] in ps && ps[y] in ps;
    assert x != y ==> Apart(ps[x].state, ps[y].state);
  }
}
