/**
  The handshake of crypto/noise.go: HandshakeState.ProcessMessage over a symbolic three-message XX exchange
  (sections 5.2, 5.3 and 7.5 of the Noise Protocol Framework). A message carries the writer's fresh
  contribution; after the first, it is bound to everything exchanged before it.
*/
module Handshake {
  import opened Base
  import opened Noise

  datatype Msg = Msg(prior: seq<nat>, body: nat)

  /** Derives the two transport keys from the transcript; the first is for initiator to responder. */
  type Split = seq<nat> -> (Key, Key)

  /** The library's handshake state together with the wrapper's completed mark. */
  datatype State = State(initiator: bool, transcript: seq<nat>, completed: bool)

  predicate MyTurnToWrite(s: State) {
    |s.transcript| < 3 && (s.initiator <==> |s.transcript| % 2 == 0)
  }

  function Write(s: State, body: nat): Option<(State, Msg)> {
    if !MyTurnToWrite(s) then None
    else Some((s.(transcript := s.transcript + [body]), Msg(s.transcript, body)))
  }

  /** Out of turn or bound to another exchange is an error, and an error leaves the state alone. */
  function Read(s: State, m: Msg): Option<State> {
    if |s.transcript| >= 3 || MyTurnToWrite(s) || (|s.transcript| > 0 && m.prior != s.transcript) then None
    else Some(s.(transcript := s.transcript + [m.body]))
  }

  /** Role decides which key is for sending. */
  function SessionOf(split: Split, s: State): SessionState {
    var (k1, k2) := split(s.transcript);
    if s.initiator then Fresh(k1, k2) else Fresh(k2, k1)
  }

  datatype Reply = Error | Reply(response: Option<Msg>, session: Option<SessionState>)

  function Process(split: Split, s: State, m: Msg, body: nat): (State, Reply) {
    if s.completed || Read(s, m).None? then (s, Error)
    else
      var s1 := Read(s, m).value;
      if |s1.transcript| == 3 then (s1.(completed := true), Reply(None, Some(SessionOf(split, s1))))
      else
        match Write(s1, body)
        case None => (s1, Error)
        case Some((s2, response)) =>
          if |s2.transcript| == 3 then (s2.(completed := true), Reply(Some(response), Some(SessionOf(split, s2))))
          else (s2, Reply(Some(response), None))
  }

  function NewInitiator(body: nat): (State, Msg) {
    (State(true, [body], false), Msg([], body))
  }

  const NEW_RESPONDER := State(false, [], false)

  class HandshakeState {
    const isInitiator: bool
    const split: Split
    var transcript: seq<nat>
    var completed: bool

    function View(): State
      reads this
    {
      State(isInitiator, transcript, completed)
    }

    constructor Initiator(split: Split, body: nat)
      ensures this.split == split && View() == NewInitiator(body).0
    {
      this.split, isInitiator, transcript, completed := split, true, [body], false;
    }

    constructor Responder(split: Split)
      ensures this.split == split && View() == NEW_RESPONDER
    {
      this.split, isInitiator, transcript, completed := split, false, [], false;
    }

    method ProcessMessage(m: Msg, body: nat) returns (reply: Reply)
      modifies this
      ensures (View(), reply) == Process(split, old(View()), m, body)
    {
      if completed {
        return Error;
      }
      var read := Read(View(), m);
      if read.None? {
        return Error;
      }
      transcript := read.value.transcript;
      if |transcript| < 3 {
        var written := Write(View(), body);
        if written.None? {
          return Error;
        }
        transcript := written.value.0.transcript;
        if |transcript| == 3 {
          completed := true;
          return Reply(Some(written.value.1), Some(SessionOf(split, View())));
        }
        return Reply(Some(written.value.1), None);
      }
      completed := true;
      return Reply(None, Some(SessionOf(split, View())));
    }
  }

  // ---- Results ----

  datatype Input = Input(msg: Msg, body: nat)

  /** The sessions a handshake state hands out over a list of messages. */
  function Sessions(split: Split, s: State, inputs: seq<Input>): seq<SessionState>
    decreases |inputs|
  {
    if inputs == [] then []
    else
      var (s', reply) := Process(split, s, inputs[0].msg, inputs[0].body);
      (if reply.Reply? && reply.session.Some? then [reply.session.value] else []) + Sessions(split, s', inputs[1..])
  }

  /** Whatever is thrown at it, one handshake state makes at most one session. */
  lemma {:induction false} AtMostOneSession(split: Split, s: State, inputs: seq<Input>)
    ensures |Sessions(split, s, inputs)| <= 1
    ensures s.completed ==> Sessions(split, s, inputs) == []
    decreases |inputs|
  {
    if inputs != [] {
      AtMostOneSession(split, Process(split, s, inputs[0].msg, inputs[0].body).0, inputs[1..]);
    }
  }

  predicate Mirrored(a: SessionState, b: SessionState) {
    a.send == b.recv && a.recv == b.send
  }

  /** The undisturbed exchange completes both sides in three messages with mirrored sessions. */
  lemma {:induction false} ExchangeCompletes(split: Split, e1: nat, e2: nat, e3: nat)
    ensures var (i0, m1) := NewInitiator(e1);
            var (r1, reply1) := Process(split, NEW_RESPONDER, m1, e2);
            && reply1.Reply? && reply1.session.None? && reply1.response.Some?
            && var (i1, reply2) := Process(split, i0, reply1.response.value, e3);
            && reply2.Reply? && reply2.session.Some? && reply2.response.Some?
            && var (r2, reply3) := Process(split, r1, reply2.response.value, 0);
            && reply3.Reply? && reply3.session.Some? && reply3.response.None?
            && i1.completed && r2.completed && Mirrored(reply2.session.value, reply3.session.value)
  {
    var (i0, m1) := NewInitiator(e1);
    var (r1, reply1) := Process(split, NEW_RESPONDER, m1, e2);
    assert r1.transcript == [e1, e2];
    var (i1, reply2) := Process(split, i0, reply1.response.value, e3);
    assert i1.transcript == [e1, e2, e3];
    var (r2, reply3) := Process(split, r1, reply2.response.value, 0);
    assert r2.transcript == [e1, e2, e3];
  }
}
