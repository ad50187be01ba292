/** The reconnect manager of node/reconnect.go: one retry loop per lost peer, its delays and its outcome. */
module Reconnect {
  import opened Base

  type Error = string

  datatype ReconnectState = Waiting | Connecting | Success | Failed

  /** How a loop ends, with what its callback is given. */
  datatype Outcome = Reconnected(attempts: int) | GaveUp(tries: int, lastError: Option<Error>)

  /** Where a loop stands between two critical sections. */
  datatype Pc = Top | Check | Delay | Dial | Confirm

  /** What the loop learns from outside at a step: is the peer connected, what did ConnectContext return. */
  datatype Obs = Obs(connected: bool, dialed: Option<Error>)

  /** One reconnectLoop and its entry; `results` is the history of ConnectContext calls (None is success). */
  datatype Loop = Loop(
    peer: string,
    state: ReconnectState,
    attempt: nat,
    lastError: Option<Error>,
    pc: Pc,
    outcome: Option<Outcome>,
    results: seq<Option<Error>>)

  function Start(peer: string): Loop {
    Loop(peer, Waiting, 0, None, Top, None, [])
  }

  function Succeed(l: Loop): Loop {
    l.(state := Success, outcome := Some(Reconnected(l.attempt)))
  }

  function GiveUp(l: Loop): Loop {
    l.(state := Failed, outcome := Some(GaveUp(l.attempt - 1, l.lastError)))
  }

  /** From one critical section to the next. maxRetries 0 means no limit. */
  function LoopStep(maxRetries: nat, l: Loop, o: Obs): Loop {
    if l.outcome.Some? then l
    else
      match l.pc
      case Top => if o.connected then Succeed(l) else l.(attempt := l.attempt + 1, pc := Check)
      case Check => if maxRetries > 0 && l.attempt > maxRetries then GiveUp(l) else l.(state := Waiting, pc := Delay)
      case Delay => if o.connected then Succeed(l) else l.(state := Connecting, pc := Dial)
      case Dial =>
        var l' := l.(results := l.results + [o.dialed]);
        if o.dialed.Some? then l'.(lastError := o.dialed, pc := Top) else l'.(pc := Confirm)
      case Confirm => if o.connected then Succeed(l) else l.(pc := Top)
  }

  function RunLoop(maxRetries: nat, l: Loop, obs: seq<Obs>): Loop {
    if obs == [] then l else LoopStep(maxRetries, RunLoop(maxRetries, l, obs[..|obs| - 1]), obs[|obs| - 1])
  }

  /** The error of the latest failed call. */
  function LatestError(results: seq<Option<Error>>): Option<Error> {
    if results == [] then None
    else if results[|results| - 1].Some? then results[|results| - 1]
    else LatestError(results[..|results| - 1])
  }

  /** Steps taken, counted by attempts and place. */
  function Progress(l: Loop): int {
    match l.pc
    case Top => 5 * l.attempt
    case Check => 5 * l.attempt - 4
    case Delay => 5 * l.attempt - 3
    case Dial => 5 * l.attempt - 2
    case Confirm => 5 * l.attempt - 1
  }

  predicate LoopOk(maxRetries: nat, l: Loop) {
    && l.lastError == LatestError(l.results)
    && (l.outcome.None? ==>
          && (l.state == Waiting || l.state == Connecting)
          && |l.results| == (if l.pc == Top || l.pc == Confirm then l.attempt else l.attempt - 1)
          && (maxRetries > 0 ==> l.attempt <= if l.pc == Check then maxRetries + 1 else maxRetries))
    && (l.outcome.Some? ==>
          match l.outcome.value
          case Reconnected(n) =>
            && l.state == Success && |l.results| <= n <= |l.results| + 1
            && (maxRetries > 0 ==> n <= maxRetries)
          case GaveUp(n, e) =>
            && l.state == Failed && maxRetries > 0 && n == |l.results| == maxRetries && e == LatestError(l.results))
  }

  lemma {:induction false} LoopStepOk(maxRetries: nat, l: Loop, o: Obs)
    requires LoopOk(maxRetries, l)
    ensures var l' := LoopStep(maxRetries, l, o);
            && LoopOk(maxRetries, l')
            && (l'.outcome.None? ==> Progress(l') > Progress(l))
            && (l.outcome.Some? ==> l' == l)
            && l'.peer == l.peer
  {
    if l.pc == Dial {
      assert (l.results + [o.dialed])[..|l.results|] == l.results;
    }
  }

  lemma {:induction false} RunLoopOk(maxRetries: nat, peer: string, obs: seq<Obs>)
    ensures var l := RunLoop(maxRetries, Start(peer), obs);
            LoopOk(maxRetries, l) && l.peer == peer && (l.outcome.None? ==> Progress(l) >= |obs|)
    decreases |obs|
  {
    if obs != [] {
      RunLoopOk(maxRetries, peer, obs[..|obs| - 1]);
      LoopStepOk(maxRetries, RunLoop(maxRetries, Start(peer), obs[..|obs| - 1]), obs[|obs| - 1]);
    }
  }

  /**
    Reconnect outcome. With a limit of m > 0 tries, every loop left to run ends within 5m + 2 steps, calls
    ConnectContext at most m times and ends either reconnected or given up; giving up happens after exactly
    m calls, reports m, and carries the error of the latest failed call.
  */
  lemma {:induction false} ReconnectOutcome(m: nat, peer: string, obs: seq<Obs>)
    requires m > 0
    ensures var l := RunLoop(m, Start(peer), obs);
            && |l.results| <= m
            && (|obs| >= 5 * m + 2 ==> l.outcome.Some?)
            && (l.outcome.Some? && l.outcome.value.GaveUp? ==>
                  |l.results| == m && l.outcome == Some(GaveUp(m, LatestError(l.results))))
            && (l.outcome.Some? && l.outcome.value.Reconnected? ==>
                  |l.results| <= l.outcome.value.attempts <= m)
  {
    RunLoopOk(m, peer, obs);
  }

  /** An outcome, once reached, is the only one. */
  lemma {:induction false} OutcomeIsFinal(m: nat, l: Loop, obs: seq<Obs>)
    requires l.outcome.Some?
    ensures RunLoop(m, l, obs) == l
    decreases |obs|
  {
    if obs != [] {
      OutcomeIsFinal(m, l, obs[..|obs| - 1]);
    }
  }

  /**
    A loop that finds its peer connected ends. From any unfinished point of a run, two steps that see the peer
    connected end the loop with success and the attempts made so far, unless the last allowed try is already
    over, when it gives up.
  */
  lemma {:induction false} ConnectedEndsLoop(m: nat, peer: string, obs: seq<Obs>, o1: Obs, o2: Obs)
    requires RunLoop(m, Start(peer), obs).outcome.None? && o1.connected && o2.connected
    ensures var l := RunLoop(m, Start(peer), obs);
            RunLoop(m, Start(peer), obs + [o1, o2]).outcome ==
            Some(if m > 0 && l.attempt > m then GaveUp(m, LatestError(l.results)) else Reconnected(l.attempt))
  {
    var l := RunLoop(m, Start(peer), obs);
    RunLoopOk(m, peer, obs);
    var more := obs + [o1, o2];
    assert more[..|more| - 1] == obs + [o1] && (obs + [o1])[..|obs|] == obs;
    var l1 := LoopStep(m, l, o1);
    assert RunLoop(m, Start(peer), obs + [o1]) == l1;
    assert RunLoop(m, Start(peer), more) == LoopStep(m, l1, o2);
  }

  /** Success is reported only where the peer was seen connected, and at the first such check. */
  lemma {:induction false} SuccessWasSeen(m: nat, peer: string, obs: seq<Obs>) returns (i: nat)
    requires var l := RunLoop(m, Start(peer), obs); l.outcome.Some? && l.outcome.value.Reconnected?
    ensures i < |obs| && obs[i].connected
    ensures var l := RunLoop(m, Start(peer), obs[..i]);
            && l.outcome.None? && l.pc in {Top, Delay, Confirm}
            && RunLoop(m, Start(peer), obs).outcome == Some(Reconnected(l.attempt))
    decreases |obs|
  {
    var init := obs[..|obs| - 1];
    var before := RunLoop(m, Start(peer), init);
    if before.outcome.Some? {
      i := SuccessWasSeen(m, peer, init);
      assert init[..i] == obs[..i];
    } else {
      i := |obs| - 1;
    }
  }

  // ---- The manager ----

  /** entries maps a peer to the number of its loop. */
  datatype Manager = Manager(entries: map<string, nat>, loops: seq<Loop>)

  datatype Step = Schedule(peer: string, addr: string) | Advance(loop: nat, obs: Obs)

  function DoSchedule(m: Manager, peer: string, addr: string): Manager {
    if addr == "" then m
    else if peer in m.entries && m.entries[peer] < |m.loops|
            && (m.loops[m.entries[peer]].state == Connecting || m.loops[m.entries[peer]].state == Waiting) then m
    else Manager(m.entries[peer := |m.loops|], m.loops + [Start(peer)])
  }

  /** A loop that finishes deletes the entry of its peer in the same critical section. */
  function DoAdvance(maxRetries: nat, m: Manager, i: nat, o: Obs): Manager {
    if i >= |m.loops| || m.loops[i].outcome.Some? then m
    else
      var l := LoopStep(maxRetries, m.loops[i], o);
      Manager(if l.outcome.Some? then m.entries - {l.peer} else m.entries, m.loops[i := l])
  }

  function Next(maxRetries: nat, m: Manager, s: Step): Manager {
    match s
    case Schedule(peer, addr) => DoSchedule(m, peer, addr)
    case Advance(i, o) => DoAdvance(maxRetries, m, i, o)
  }

  function Run(maxRetries: nat, steps: seq<Step>): Manager {
    if steps == [] then Manager(map[], [])
    else Next(maxRetries, Run(maxRetries, steps[..|steps| - 1]), steps[|steps| - 1])
  }

  predicate Live(l: Loop) {
    l.outcome.None?
  }

  /** The entries are exactly the peers with an unfinished loop, one each, waiting or connecting. */
  predicate OneLoopEach(m: Manager) {
    && (forall p :: p in m.entries ==>
          m.entries[p] < |m.loops| && Live(m.loops[m.entries[p]]) && m.loops[m.entries[p]].peer == p)
    && (forall i :: 0 <= i < |m.loops| && Live(m.loops[i]) ==>
          && m.loops[i].peer in m.entries && m.entries[m.loops[i].peer] == i
          && (m.loops[i].state == Waiting || m.loops[i].state == Connecting))
  }

  predicate AllLoopsOk(maxRetries: nat, m: Manager) {
    forall i :: 0 <= i < |m.loops| ==> LoopOk(maxRetries, m.loops[i])
  }

  lemma {:induction false} AdvanceKeepsOneLoop(maxRetries: nat, m: Manager, i: nat, o: Obs)
    requires OneLoopEach(m) && AllLoopsOk(maxRetries, m)
    ensures OneLoopEach(DoAdvance(maxRetries, m, i, o)) && AllLoopsOk(maxRetries, DoAdvance(maxRetries, m, i, o))
  {
    if i < |m.loops| && Live(m.loops[i]) {
      LoopStepOk(maxRetries, m.loops[i], o);
    }
  }

  /** In every run without cancellation the entries hold exactly the live loops. */
  lemma {:induction false} OneLiveLoopPerPeer(maxRetries: nat, steps: seq<Step>)
    ensures OneLoopEach(Run(maxRetries, steps)) && AllLoopsOk(maxRetries, Run(maxRetries, steps))
    decreases |steps|
  {
    if steps != [] {
      var m := Run(maxRetries, steps[..|steps| - 1]);
      OneLiveLoopPerPeer(maxRetries, steps[..|steps| - 1]);
      match steps[|steps| - 1]
      case Schedule(peer, addr) =>
      case Advance(i, o) => AdvanceKeepsOneLoop(maxRetries, m, i, o);
    }
  }

  /** The peer a step is for. */
  function Concerns(m: Manager, s: Step): Option<string> {
    match s
    case Schedule(peer, _) => Some(peer)
    case Advance(i, _) => if i < |m.loops| then Some(m.loops[i].peer) else None
  }

  /**
    In every run, scheduling a peer with an address leaves it with an unfinished loop, the one it had if it had
    one; and no step touches the entry or the loop of any other peer.
  */
  lemma {:induction false} ScheduledIsLive(maxRetries: nat, steps: seq<Step>, s: Step, other: string)
    ensures var m, m' := Run(maxRetries, steps), Run(maxRetries, steps + [s]);
            && (s.Schedule? && s.addr != "" ==>
                  && s.peer in m'.entries && m'.entries[s.peer] < |m'.loops| && Live(m'.loops[m'.entries[s.peer]])
                  && (s.peer in m.entries ==> m' == m)
                  && (s.peer !in m.entries ==> m'.loops == m.loops + [Start(s.peer)]))
            && (Concerns(m, s) != Some(other) ==>
                  && (other in m'.entries <==> other in m.entries)
                  && (other in m.entries ==>
                        && m'.entries[other] == m.entries[other] < |m.loops| <= |m'.loops|
                        && m'.loops[m'.entries[other]] == m.loops[m.entries[other]]))
  {
    var m := Run(maxRetries, steps);
    assert (steps + [s])[..|steps|] == steps;
    OneLiveLoopPerPeer(maxRetries, steps);
    if s.Advance? && s.loop < |m.loops| && Live(m.loops[s.loop]) {
      LoopStepOk(maxRetries, m.loops[s.loop], s.obs);
    }
  }

  // ---- The loop and its entry as the source updates them ----

  lemma {:induction false} RunLoopAppend(m: nat, l: Loop, xs: seq<Obs>, ys: seq<Obs>)
    ensures RunLoop(m, l, xs + ys) == RunLoop(m, RunLoop(m, l, xs), ys)
    decreases |ys|
  {
    if ys == [] {
      assert xs + ys == xs;
    } else {
      assert (xs + ys)[..|xs + ys| - 1] == xs + ys[..|ys| - 1];
      RunLoopAppend(m, l, xs, ys[..|ys| - 1]);
    }
  }

  lemma {:induction false} RunLoopSnoc(m: nat, l: Loop, obs: seq<Obs>, i: nat)
    requires i < |obs|
    ensures RunLoop(m, l, obs[..i + 1]) == LoopStep(m, RunLoop(m, l, obs[..i]), obs[i])
  {
    assert obs[..i + 1][..i] == obs[..i];
  }

  lemma {:induction false} RunLoopDone(m: nat, l: Loop, obs: seq<Obs>, i: nat)
    requires i <= |obs| && RunLoop(m, l, obs[..i]).outcome.Some?
    ensures RunLoop(m, l, obs) == RunLoop(m, l, obs[..i])
  {
    assert obs == obs[..i] + obs[i..];
    RunLoopAppend(m, l, obs[..i], obs[i..]);
    OutcomeIsFinal(m, RunLoop(m, l, obs[..i]), obs[i..]);
  }

  class Entry {
    const peerID: string
    const addr: string
    var state: ReconnectState
    var attempt: nat
    var lastError: Option<Error>

    constructor (peerID: string, addr: string)
      ensures this.peerID == peerID && this.addr == addr
      ensures View(Top, None, []) == Start(peerID)
    {
      this.peerID, this.addr := peerID, addr;
      state, attempt, lastError := Waiting, 0, None;
    }

    ghost function View(pc: Pc, outcome: Option<Outcome>, results: seq<Option<Error>>): Loop
      reads this
    {
      Loop(peerID, state, attempt, lastError, pc, outcome, results)
    }
  }

  class ReconnectManager {
    const enabled: bool
    const maxRetries: nat
    var entries: map<string, Entry>

    constructor (enabled: bool, maxRetries: nat)
      ensures this.enabled == enabled && this.maxRetries == maxRetries && entries == map[]
    {
      this.enabled, this.maxRetries, entries := enabled, maxRetries, map[];
    }

    /** Starts a loop (the returned entry) unless the peer has one that is waiting or connecting. */
    method ScheduleReconnect(peerID: string, addr: string) returns (started: Entry?)
      modifies this`entries
      ensures var busy := peerID in old(entries)
                          && (old(entries[peerID].state) == Connecting || old(entries[peerID].state) == Waiting);
              if !enabled || addr == "" || busy then started == null && entries == old(entries)
              else
                && started != null && fresh(started) && entries == old(entries)[peerID := started]
                && started.View(Top, None, []) == Start(peerID) && started.addr == addr
    {
      if !enabled || addr == "" {
        return null;
      }
      if peerID in entries {
        if entries[peerID].state == Connecting || entries[peerID].state == Waiting {
          return null;
        }
      }
      started := new Entry(peerID, addr);
      entries := entries[peerID := started];
    }

    method HandleReconnectSuccess(entry: Entry) returns (outcome: Outcome)
      modifies this`entries, entry`state
      ensures entry.state == Success && entries == old(entries) - {entry.peerID}
      ensures outcome == Reconnected(entry.attempt)
    {
      entry.state := Success;
      entries := entries - {entry.peerID};
      return Reconnected(entry.attempt);
    }

    method HandleReconnectFailed(entry: Entry) returns (outcome: Outcome)
      modifies this`entries, entry`state
      ensures entry.state == Failed && entries == old(entries) - {entry.peerID}
      ensures outcome == GaveUp(entry.attempt - 1, entry.lastError)
    {
      entry.state := Failed;
      entries := entries - {entry.peerID};
      return GaveUp(entry.attempt - 1, entry.lastError);
    }

    /**
      The retry loop on the observations the outside gives it, one per critical section; where they run out
      the loop is interrupted. `results` are the ConnectContext calls it made.
    */
    method ReconnectLoop(entry: Entry, obs: seq<Obs>) returns (outcome: Option<Outcome>, results: seq<Option<Error>>)
      modifies this`entries, entry
      ensures var l := RunLoop(maxRetries, old(entry.View(Top, None, [])), obs);
              && outcome == l.outcome && results == l.results
              && entry.state == l.state && entry.attempt == l.attempt && entry.lastError == l.lastError
      ensures entries == if outcome.Some? then old(entries) - {entry.peerID} else old(entries)
    {
      ghost var l := entry.View(Top, None, []);
      var i := 0;
      outcome, results := None, [];
      while i < |obs|
        invariant 0 <= i <= |obs|
        invariant outcome == None && entries == old(entries)
        invariant At(entry, l, obs, i, results) && (i < |obs| ==> RunLoop(maxRetries, l, obs[..i]).pc == Top)
        decreases |obs| - i
      {
        i, outcome := AwaitTurn(entry, results, obs, i, l);
        if outcome.Some? {
          return;
        }
        if i < |obs| {
          i, outcome, results := Attempt(entry, results, obs, i, l);
          if outcome.Some? {
            return;
          }
        }
      }
      assert obs[..|obs|] == obs;
    }

    /** The entry shows where the loop stands after i observations. */
    ghost predicate At(entry: Entry, l: Loop, obs: seq<Obs>, i: nat, results: seq<Option<Error>>)
      reads entry
      requires i <= |obs|
    {
      var now := RunLoop(maxRetries, l, obs[..i]);
      now == entry.View(now.pc, None, results)
    }

    /** The entry shows how the loop ended. */
    ghost predicate Ended(entry: Entry, l: Loop, obs: seq<Obs>, outcome: Option<Outcome>, results: seq<Option<Error>>)
      reads entry
    {
      var now := RunLoop(maxRetries, l, obs);
      outcome.Some? && now == entry.View(now.pc, outcome, results)
    }

    /** Check the connection, count the attempt, check the limit, wait, check again. */
    method AwaitTurn(entry: Entry, results: seq<Option<Error>>, obs: seq<Obs>, i0: nat, ghost l: Loop)
      returns (i: nat, outcome: Option<Outcome>)
      requires i0 < |obs| && At(entry, l, obs, i0, results) && RunLoop(maxRetries, l, obs[..i0]).pc == Top
      modifies this`entries, entry
      ensures i0 < i <= |obs|
      ensures outcome.Some? ==> Ended(entry, l, obs, outcome, results) && entries == old(entries) - {entry.peerID}
      ensures outcome.None? ==> At(entry, l, obs, i, results) && entries == old(entries)
                                && (i < |obs| ==> RunLoop(maxRetries, l, obs[..i]).pc == Dial)
    {
      hide RunLoop;
      i, outcome := i0 + 1, None;
      RunLoopSnoc(maxRetries, l, obs, i - 1);
      if obs[i - 1].connected {
        outcome := Finish(entry, true, results, l, obs, i);
        return;
      }
      entry.attempt := entry.attempt + 1;
      assert RunLoop(maxRetries, l, obs[..i]) == entry.View(Check, None, results);
      if i == |obs| {
        return;
      }
      i := i + 1;
      RunLoopSnoc(maxRetries, l, obs, i - 1);
      if maxRetries > 0 && entry.attempt > maxRetries {
        outcome := Finish(entry, false, results, l, obs, i);
        return;
      }
      entry.state := Waiting;
      assert RunLoop(maxRetries, l, obs[..i]) == entry.View(Delay, None, results);
      if i == |obs| {
        return;
      }
      i := i + 1;
      RunLoopSnoc(maxRetries, l, obs, i - 1);
      if obs[i - 1].connected {
        outcome := Finish(entry, true, results, l, obs, i);
        return;
      }
      entry.state := Connecting;
      assert RunLoop(maxRetries, l, obs[..i]) == entry.View(Dial, None, results);
    }

    /** Call ConnectContext; after a call that returned no error, check that the peer is there. */
    method Attempt(entry: Entry, before: seq<Option<Error>>, obs: seq<Obs>, i0: nat, ghost l: Loop)
      returns (i: nat, outcome: Option<Outcome>, results: seq<Option<Error>>)
      requires i0 < |obs| && At(entry, l, obs, i0, before) && RunLoop(maxRetries, l, obs[..i0]).pc == Dial
      modifies this`entries, entry
      ensures i0 < i <= |obs|
      ensures outcome.Some? ==> Ended(entry, l, obs, outcome, results) && entries == old(entries) - {entry.peerID}
      ensures outcome.None? ==> At(entry, l, obs, i, results) && entries == old(entries)
                                && (i < |obs| ==> RunLoop(maxRetries, l, obs[..i]).pc == Top)
    {
      i, outcome, results := i0 + 1, None, before + [obs[i0].dialed];
      RunLoopSnoc(maxRetries, l, obs, i0);
      if obs[i0].dialed.Some? {
        entry.lastError := obs[i0].dialed;
        return;
      }
      if i == |obs| {
        return;
      }
      i := i + 1;
      RunLoopSnoc(maxRetries, l, obs, i - 1);
      if obs[i - 1].connected {
        outcome := Finish(entry, true, results, l, obs, i);
      }
    }

    /** The end of a loop after i observations, by success or by giving up. */
    method Finish(entry: Entry, success: bool, results: seq<Option<Error>>, ghost l: Loop, ghost obs: seq<Obs>,
                  ghost i: nat)
      returns (outcome: Option<Outcome>)
      requires i <= |obs|
      requires var now := RunLoop(maxRetries, l, obs[..i]);
               now == if success then Succeed(entry.View(now.pc, None, results))
                   else GiveUp(entry.View(now.pc, None, results))
      modifies this`entries, entry`state
      ensures Ended(entry, l, obs, outcome, results)
      ensures entries == old(entries) - {entry.peerID}
    {
      RunLoopDone(maxRetries, l, obs, i);
      var o;
      if success {
        o := HandleReconnectSuccess(entry);
      } else {
        o := HandleReconnectFailed(entry);
      }
      outcome := Some(o);
    }
  }

  // ---- Delays ----

  datatype DelayConfig = DelayConfig(initialDelay: int, maxDelay: int, multiplier: real, jitterFactor: real)

  /** What Config.Validate enforces. */
  predicate ValidDelays(c: DelayConfig) {
    0 < c.initialDelay <= c.maxDelay && c.multiplier >= 1.0 && 0.0 <= c.jitterFactor <= 1.0
  }

  const MILLISECOND := 1_000_000

  function Pow(x: real, k: nat): real {
    if k == 0 then 1.0 else x * Pow(x, k - 1)
  }

  function Clamp(x: real, lo: real, hi: real): real {
    if x < lo then (if lo > hi then hi else lo) else if x > hi then hi else x
  }

  function Exponential(lo: int, multiplier: real, k: nat): real {
    (lo as real) * Pow(multiplier, k)
  }

  function Scaled(x: real, k: real): real {
    x * k
  }

  function Jittered(delay: real, factor: real, draw: real): real {
    if factor > 0.0 then delay + Scaled(Scaled(delay, factor), 2.0 * draw - 1.0) else delay
  }

  /** The delay before an attempt, over the reals; draw is the random number from [0, 1). */
  function CalculateBackoff(c: DelayConfig, attempt: int, draw: real): int {
    var n := if attempt < 1 then 1 else attempt;
    var max0 := if c.maxDelay <= 0 then c.initialDelay else c.maxDelay;
    var min := if c.initialDelay <= 0 then MILLISECOND else c.initialDelay;
    var max := if max0 < min then min else max0;
    Clamp(Jittered(Exponential(min, c.multiplier, n - 1), c.jitterFactor, draw), min as real, max as real).Floor
  }

  /** The bounds in effect: defaults stand in for what is not positive, and the maximum is at least the minimum. */
  function Bounds(c: DelayConfig): (r: (int, int))
    ensures 0 < r.0 <= r.1
    ensures 0 < c.initialDelay <= c.maxDelay ==> r == (c.initialDelay, c.maxDelay)
  {
    var lo := if c.initialDelay > 0 then c.initialDelay else MILLISECOND;
    var hi := if c.maxDelay > 0 then c.maxDelay else c.initialDelay;
    (lo, if hi > lo then hi else lo)
  }

  /** Whatever the configuration, the attempt and the random draw, the delay stays within the bounds. */
  lemma {:induction false} DelayWithinBounds(c: DelayConfig, attempt: int, draw: real)
    ensures Bounds(c).0 <= CalculateBackoff(c, attempt, draw) <= Bounds(c).1
  {
    var n := if attempt < 1 then 1 else attempt;
    var (lo, hi) := Bounds(c);
    ClampWithin(Jittered(Exponential(lo, c.multiplier, n - 1), c.jitterFactor, draw), lo, hi);
  }

  /**
    The law of the delay before the n-th attempt: the initial delay times multiplier^(n-1), off by at most the
    jitter factor either way and capped by the bounds; without jitter exactly the capped power, and with jitter
    at the lower edge for a draw of 0 and in the middle for one of a half.
  */
  lemma {:induction false} DelayLaw(c: DelayConfig, n: int, draw: real)
    requires ValidDelays(c) && n >= 1 && 0.0 <= draw < 1.0
    ensures var e := Exponential(c.initialDelay, c.multiplier, n - 1);
            var d := CalculateBackoff(c, n, draw);
            && (c.jitterFactor == 0.0 || draw == 0.5 ==> d == Capped(c, e))
            && (draw == 0.0 ==> d == Capped(c, e - Scaled(e, c.jitterFactor)))
            && Capped(c, e - Scaled(e, c.jitterFactor)) <= d <= Capped(c, e + Scaled(e, c.jitterFactor))
  {
    hide Exponential, Capped, Jittered, Clamp, Scaled;
    var e := Exponential(c.initialDelay, c.multiplier, n - 1);
    var j := Jittered(e, c.jitterFactor, draw);
    ExponentialPositive(c, n - 1);
    JitterBand(e, c.jitterFactor, draw);
    CappedIsClamp(c, j);
    CappedMonotone(c, e - Scaled(e, c.jitterFactor), j);
    CappedMonotone(c, j, e + Scaled(e, c.jitterFactor));
  }

  lemma {:induction false} ExponentialPositive(c: DelayConfig, k: nat)
    requires ValidDelays(c)
    ensures Exponential(c.initialDelay, c.multiplier, k) >= 0.0
  {
    PowGrows(c.multiplier, 0, k);
    ScaledMonotone(c.initialDelay as real, 0.0, Pow(c.multiplier, k));
  }

  function Capped(c: DelayConfig, x: real): int {
    if x < c.initialDelay as real then c.initialDelay else if x > c.maxDelay as real then c.maxDelay else x.Floor
  }

  lemma {:induction false} CappedIsClamp(c: DelayConfig, x: real)
    requires ValidDelays(c)
    ensures Clamp(x, c.initialDelay as real, c.maxDelay as real).Floor == Capped(c, x)
  {
  }

  lemma {:induction false} CappedMonotone(c: DelayConfig, x: real, y: real)
    requires ValidDelays(c) && x <= y
    ensures Capped(c, x) <= Capped(c, y)
  {
  }

  lemma {:induction false} JitterBand(e: real, factor: real, draw: real)
    requires e >= 0.0 && 0.0 <= factor && 0.0 <= draw < 1.0
    ensures e - Scaled(e, factor) <= Jittered(e, factor, draw) <= e + Scaled(e, factor)
    ensures factor == 0.0 || draw == 0.5 ==> Jittered(e, factor, draw) == e
    ensures draw == 0.0 ==> Jittered(e, factor, draw) == e - Scaled(e, factor)
  {
    assert Scaled(e, factor) >= 0.0 && (factor == 0.0 ==> Scaled(e, factor) == 0.0) by {
      ScaledMonotone(e, 0.0, factor);
    }
    hide Scaled;
    var x, k := Scaled(e, factor), 2.0 * draw - 1.0;
    SwingWithin(x, k);
    assert Jittered(e, factor, draw) == if factor > 0.0 then e + Scaled(x, k) else e;
  }

  lemma {:induction false} NonNegative(x: real, y: real)
    requires x >= 0.0 && y >= 0.0
    ensures x * y >= 0.0
  {
  }

  lemma {:induction false} SwingWithin(x: real, k: real)
    requires x >= 0.0 && -1.0 <= k <= 1.0
    ensures -x <= Scaled(x, k) <= x
    ensures k == 0.0 ==> Scaled(x, k) == 0.0
    ensures k == -1.0 ==> Scaled(x, k) == -x
  {
    NonNegative(x, k + 1.0);
    NonNegative(x, 1.0 - k);
    assert x * (k + 1.0) == x * k + x && x * (1.0 - k) == x - x * k;
  }

  lemma {:induction false} ClampWithin(x: real, lo: int, hi: int)
    requires lo <= hi
    ensures lo <= Clamp(x, lo as real, hi as real).Floor <= hi
  {
  }

  lemma {:induction false} ExponentialGrows(lo: int, multiplier: real, j: nat, k: nat)
    requires lo > 0 && multiplier >= 1.0 && j <= k
    ensures Exponential(lo, multiplier, j) <= Exponential(lo, multiplier, k)
  {
    PowGrows(multiplier, j, k);
    ScaledMonotone(lo as real, Pow(multiplier, j), Pow(multiplier, k));
  }

  lemma {:induction false} PowGrows(x: real, j: nat, k: nat)
    requires x >= 1.0 && j <= k
    ensures 1.0 <= Pow(x, j) <= Pow(x, k)
    decreases k
  {
    if j < k {
      PowGrows(x, j, k - 1);
    } else if k > 0 {
      PowGrows(x, k - 1, k - 1);
    }
  }

  lemma {:induction false} ScaledMonotone(a: real, x: real, y: real)
    requires a >= 0.0 && x <= y
    ensures a * x <= a * y
  {
  }

  lemma {:induction false} ClampMonotone(x: real, y: real, lo: real, hi: real)
    requires x <= y && lo <= hi
    ensures Clamp(x, lo, hi).Floor <= Clamp(y, lo, hi).Floor
  {
  }

  /** Without jitter, later attempts never wait less. */
  lemma {:induction false} DelayMonotone(c: DelayConfig, n: int, m: int, draw: real, draw': real)
    requires ValidDelays(c) && c.jitterFactor == 0.0 && n <= m
    ensures CalculateBackoff(c, n, draw) <= CalculateBackoff(c, m, draw')
  {
    var j, k := (if n < 1 then 1 else n) - 1, (if m < 1 then 1 else m) - 1;
    ExponentialGrows(c.initialDelay, c.multiplier, j, k);
    ClampMonotone(Exponential(c.initialDelay, c.multiplier, j), Exponential(c.initialDelay, c.multiplier, k),
                  c.initialDelay as real, c.maxDelay as real);
  }
}
