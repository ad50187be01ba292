/**
  Whole runs of desync recovery for one peer, without UpgradeTransport or Close: packets that decrypt or
  fail to, re-handshake tasks that record an outcome and then clear the in-flight mark, in any interleaving
  with a clock that does not run backwards.
*/
module RecoveryRuns {
  import opened Base
  import opened Recovery

  /** How a re-handshake task ends; `Skipped` is a pending handshake in the way or the node closing. */
  datatype Result = Success | Failure | Skipped

  /** A running task: None until it has recorded its result, then only the deferred EndRehandshake is left. */
  type Task = Option<Result>

  /** One admitted attempt: when, and the start of the limiter's window then. */
  datatype Attempt = Attempt(time: int, window: int)

  datatype State = State(
    gate: Gate,
    tasks: seq<Task>,
    clock: int,
    attempts: seq<Attempt>,
    results: seq<Result>) // history: what attempts[i] came to, once recorded

  datatype Event =
    | Undecryptable(now: int)
    | Decrypted(now: int)
    | Record(task: nat, result: Result, now: int)
    | End(ended: nat, now: int)

  function Init(now: int): State {
    State(CLEARED, [], now, [], [])
  }

  function OnUndecryptable(c: Config, s: State, now: int): State {
    var (g, verdict) := OnDecryptFailure(s.gate, c, now);
    var s' := s.(gate := g);
    if verdict != Some(Admitted) || g.windowStart.None? then s'
    else
      s'.(tasks := s.tasks + [None], attempts := s.attempts + [Attempt(now, g.windowStart.value)])
  }

  function Recorded(c: Config, g: Gate, result: Result, now: int): Gate {
    match result
    case Success => RecordSuccess(g, now, c.base)
    case Failure => RecordFailure(g, now, c.base, c.max)
    case Skipped => g
  }

  function OnRecord(c: Config, s: State, task: nat, result: Result, now: int): State {
    if task >= |s.tasks| || s.tasks[task].Some? then s
    else
      s.(gate := Recorded(c, s.gate, result, now),
         tasks := s.tasks[task := Some(result)],
         results := s.results + [result])
  }

  function OnEnd(s: State, task: nat): State {
    if task >= |s.tasks| || s.tasks[task].None? then s
    else s.(gate := s.gate.(inFlight := false), tasks := s.tasks[..task] + s.tasks[task + 1..])
  }

  /** One event; an event dated before the clock, or of a task that is not there, does nothing. */
  function Next(c: Config, s: State, e: Event): State {
    if e.now < s.clock then s
    else
      var s' := s.(clock := e.now);
      match e
      case Undecryptable(now) => OnUndecryptable(c, s', now)
      case Decrypted(_) => s'.(gate := s.gate.(decryptFails := 0))
      case Record(task, result, now) => OnRecord(c, s', task, result, now)
      case End(task, _) => OnEnd(s', task)
  }

  function Run(c: Config, s: State, events: seq<Event>): State {
    if events == [] then s else Next(c, Run(c, s, events[..|events| - 1]), events[|events| - 1])
  }

  // ---- Counting ----

  function Count(s: seq<Attempt>, p: Attempt -> bool): nat {
    if s == [] then 0 else Count(s[..|s| - 1], p) + if p(s[|s| - 1]) then 1 else 0
  }

  lemma {:induction false} CountSnoc(s: seq<Attempt>, x: Attempt, p: Attempt -> bool)
    ensures Count(s + [x], p) == Count(s, p) + if p(x) then 1 else 0
  {
    assert (s + [x])[..|s|] == s;
  }

  lemma {:induction false} CountZero(s: seq<Attempt>, p: Attempt -> bool)
    requires forall x :: x in s ==> !p(x)
    ensures Count(s, p) == 0
  {
    if s != [] {
      CountZero(s[..|s| - 1], p);
    }
  }

  lemma {:induction false} CountCover(s: seq<Attempt>, p: Attempt -> bool, q: Attempt -> bool, r: Attempt -> bool)
    requires forall x :: x in s && p(x) ==> q(x) || r(x)
    ensures Count(s, p) <= Count(s, q) + Count(s, r)
  {
    if s != [] {
      CountCover(s[..|s| - 1], p, q, r);
    }
  }

  lemma {:induction false} CountMonotone(s: seq<Attempt>, p: Attempt -> bool, q: Attempt -> bool)
    requires forall x :: x in s && p(x) ==> q(x)
    ensures Count(s, p) <= Count(s, q)
    ensures (exists x :: x in s && q(x) && !p(x)) ==> Count(s, p) < Count(s, q)
  {
    if s != [] {
      CountMonotone(s[..|s| - 1], p, q);
    }
  }

  function In(lo: int, hi: int): Attempt -> bool {
    (x: Attempt) => lo <= x.time < hi
  }

  function OfWindow(w: int): Attempt -> bool {
    (x: Attempt) => x.window == w
  }

  function InOfWindow(lo: int, hi: int, w: int): Attempt -> bool {
    (x: Attempt) => lo <= x.time < hi && x.window == w
  }

  // ---- Invariant ----

  /** The window's first attempt happened at its very start. */
  predicate OpensAtStart(attempts: seq<Attempt>, w: int) {
    exists y :: y in attempts && y.window == w && y.time == w
  }

  predicate Apart(c: Config, attempts: seq<Attempt>) {
    forall x, y :: x in attempts && y in attempts ==>
      x.window == y.window || x.window + c.window <= y.window || y.window + c.window <= x.window
  }

  /** Windows are at least their length apart, open with an attempt at their start and hold at most `limit`. */
  predicate WindowsOk(c: Config, attempts: seq<Attempt>) {
    && Apart(c, attempts)
    && (forall x :: x in attempts ==> x.window <= x.time < x.window + c.window)
    && (forall x :: x in attempts ==> Count(attempts, OfWindow(x.window)) <= c.limit)
    && (forall x :: x in attempts ==> OpensAtStart(attempts, x.window))
  }

  /** At most one task runs, and the gate's mark says whether; results lag attempts by an unrecorded task. */
  predicate TasksOk(inFlight: bool, tasks: seq<Task>, attempts: seq<Attempt>, results: seq<Result>) {
    && |tasks| == (if inFlight then 1 else 0)
    && |attempts| == |results| + (if tasks == [None] then 1 else 0)
  }

  /** Once recorded, a result other than Skipped keeps the next attempt the base backoff away. */
  predicate DistanceOk(c: Config, nextAttempt: Option<int>, attempts: seq<Attempt>, results: seq<Result>) {
    0 < |attempts| == |results| && results[|results| - 1] != Skipped ==>
      nextAttempt.Some? && nextAttempt.value >= attempts[|attempts| - 1].time + c.base
  }

  /** Consecutive attempts are at least the base backoff apart unless the earlier one was skipped. */
  predicate SpacedOut(c: Config, attempts: seq<Attempt>, results: seq<Result>) {
    && |attempts| <= |results| + 1
    && forall i :: 0 <= i < |attempts| - 1 ==>
         results[i] == Skipped || attempts[i + 1].time >= attempts[i].time + c.base
  }

  /** The failures in a row at the end of a list of results; a skipped attempt neither adds nor interrupts. */
  function Trailing(results: seq<Result>): nat {
    if results == [] then 0
    else
      var before := Trailing(results[..|results| - 1]);
      match results[|results| - 1]
      case Success => 0
      case Failure => before + 1
      case Skipped => before
  }

  predicate Inv(c: Config, s: State) {
    && WindowsOk(c, s.attempts)
    && Limiter(s.gate.windowStart, s.gate.windowCount, s.attempts, s.clock)
    && TasksOk(s.gate.inFlight, s.tasks, s.attempts, s.results)
    && DistanceOk(c, s.gate.nextAttempt, s.attempts, s.results)
    && SpacedOut(c, s.attempts, s.results)
    && s.gate.rehandshakeFails == Trailing(s.results)
    && s.gate.backoff == BackoffAfter(s.gate.rehandshakeFails, c.base, c.max)
  }

  lemma {:induction false} OpeningStays(attempts: seq<Attempt>, a: Attempt, w: int)
    requires OpensAtStart(attempts, w)
    ensures OpensAtStart(attempts + [a], w)
  {
    var y :| y in attempts && y.window == w && y.time == w;
    assert y in attempts + [a];
  }

  lemma {:induction false} AttemptKeepsWindows(c: Config, attempts: seq<Attempt>, a: Attempt)
    requires WindowsOk(c, attempts)
    requires a.window <= a.time < a.window + c.window
    requires forall x :: x in attempts ==> x.window == a.window || x.window + c.window <= a.window
    requires Count(attempts, OfWindow(a.window)) < c.limit
    requires a.time == a.window || OpensAtStart(attempts, a.window)
    ensures WindowsOk(c, attempts + [a])
  {
    var more := attempts + [a];
    assert a in more;
    assert forall x :: x in more <==> x in attempts || x == a;
    forall x | x in more
      ensures Count(more, OfWindow(x.window)) <= c.limit && OpensAtStart(more, x.window)
    {
      CountSnoc(attempts, a, OfWindow(x.window));
      if OpensAtStart(attempts, x.window) {
        OpeningStays(attempts, a, x.window);
      }
    }
  }

  lemma {:induction false} SomeOfWindow(c: Config, s: seq<Attempt>, w: int)
    requires WindowsOk(c, s) && Count(s, OfWindow(w)) >= 1
    ensures OpensAtStart(s, w)
  {
    if forall x :: x in s ==> x.window != w {
      CountZero(s, OfWindow(w));
    }
  }

  /** What the limiter's fields say about the attempts so far, at time `now`. */
  predicate Limiter(start: Option<int>, count: nat, attempts: seq<Attempt>, now: int) {
    if start.None? then attempts == []
    else
      var w := start.value;
      && count == Count(attempts, OfWindow(w)) >= 1
      && w <= now
      && forall x :: x in attempts ==> x.window <= w && x.time <= now
  }

  lemma {:induction false} OthersAreEarlier(c: Config, attempts: seq<Attempt>, w: int)
    requires WindowsOk(c, attempts) && OpensAtStart(attempts, w)
    requires forall x :: x in attempts ==> x.window <= w
    ensures forall x :: x in attempts ==> x.window == w || x.window + c.window <= w
  {
    var y :| y in attempts && y.window == w && y.time == w;
  }

  lemma {:induction false} AdmissionKeepsLimiter(c: Config, g: Gate, attempts: seq<Attempt>, now: int)
    requires ValidConfig(c) && WindowsOk(c, attempts) && Limiter(g.windowStart, g.windowCount, attempts, now)
    requires Reserve(g, now, c.window, c.limit).1.Admitted?
    ensures var g' := Reserve(g, now, c.window, c.limit).0;
            && g'.windowStart.Some?
            && var a := Attempt(now, g'.windowStart.value);
            WindowsOk(c, attempts + [a]) && Limiter(g'.windowStart, g'.windowCount, attempts + [a], now)
  {
    hide WindowsOk, OpensAtStart, Count;
    var g' := Reserve(g, now, c.window, c.limit).0;
    var w := g'.windowStart.value;
    var a := Attempt(now, w);
    if g.windowStart == Some(w) && g'.windowCount > 1 {
      SomeOfWindow(c, attempts, w);
      OthersAreEarlier(c, attempts, w);
    } else {
      CountZero(attempts, OfWindow(w));
    }
    CountSnoc(attempts, a, OfWindow(w));
    AttemptKeepsWindows(c, attempts, a);
  }

  // ---- Every event keeps the invariant ----

  lemma {:induction false} LimiterLater(g: Gate, attempts: seq<Attempt>, now: int, later: int)
    requires Limiter(g.windowStart, g.windowCount, attempts, now) && now <= later
    ensures Limiter(g.windowStart, g.windowCount, attempts, later)
  {
  }

  /** A refused reservation changes nothing the history speaks of. */
  lemma {:induction false} RefusalKeepsGate(c: Config, g: Gate, now: int)
    requires ValidConfig(c) && !Reserve(g, now, c.window, c.limit).1.Admitted?
    ensures Reserve(g, now, c.window, c.limit).0 == g
  {
  }

  lemma {:induction false} AdmissionKeepsSpacing(c: Config, nextAttempt: Option<int>, attempts: seq<Attempt>,
                                                 results: seq<Result>, a: Attempt)
    requires DistanceOk(c, nextAttempt, attempts, results) && SpacedOut(c, attempts, results)
    requires |attempts| == |results|
    requires nextAttempt.Some? ==> nextAttempt.value <= a.time
    ensures SpacedOut(c, attempts + [a], results)
  {
  }

  /** A failure that is only counted. */
  function Counted(s: State): State {
    s.(gate := s.gate.(decryptFails := s.gate.decryptFails + 1))
  }

  predicate Admits(c: Config, g: Gate, now: int) {
    g.decryptFails + 1 >= c.threshold && !g.inFlight && Reserve(g, now, c.window, c.limit).1.Admitted?
  }

  /** A failure that starts an attempt, g being the gate with the reservation made. */
  function Launched(s: State, g: Gate, now: int): State
    requires g.windowStart.Some?
  {
    s.(gate := g.(inFlight := true, decryptFails := 0), tasks := s.tasks + [None],
       attempts := s.attempts + [Attempt(now, g.windowStart.value)])
  }

  lemma {:induction false} UndecryptableCases(c: Config, s: State, now: int)
    requires ValidConfig(c)
    ensures var g := Reserve(s.gate, now, c.window, c.limit).0;
            if Admits(c, s.gate, now)
            then g.windowStart.Some? && OnUndecryptable(c, s, now) == Launched(s, g, now)
            else OnUndecryptable(c, s, now) == Counted(s)
  {
    var g := s.gate.(decryptFails := s.gate.decryptFails + 1);
    var marked := g.(inFlight := true);
    if !Reserve(marked, now, c.window, c.limit).1.Admitted? {
      RefusalKeepsGate(c, marked, now);
    }
  }

  lemma {:induction false} LaunchKeepsInv(c: Config, s: State, g: Gate, now: int)
    requires Inv(c, s) && s.clock == now && s.tasks == []
    requires g == s.gate.(windowStart := g.windowStart, windowCount := g.windowCount) && g.windowStart.Some?
    requires g.nextAttempt.Some? ==> g.nextAttempt.value <= now
    requires var more := s.attempts + [Attempt(now, g.windowStart.value)];
             WindowsOk(c, more) && Limiter(g.windowStart, g.windowCount, more, now)
    ensures Inv(c, Launched(s, g, now))
  {
    hide WindowsOk, Limiter, SpacedOut, BackoffAfter;
    var a := Attempt(now, g.windowStart.value);
    AdmissionKeepsSpacing(c, s.gate.nextAttempt, s.attempts, s.results, a);
  }

  lemma {:induction false} CountKeepsInv(c: Config, s: State)
    requires ValidConfig(c) && Inv(c, s)
    ensures Inv(c, Counted(s))
  {
  }

  lemma {:induction false} UndecryptableKeepsInv(c: Config, s: State, now: int)
    requires ValidConfig(c) && Inv(c, s) && s.clock == now
    ensures Inv(c, OnUndecryptable(c, s, now))
  {
    UndecryptableCases(c, s, now);
    if Admits(c, s.gate, now) {
      AdmissionKeepsLimiter(c, s.gate, s.attempts, now);
      LaunchKeepsInv(c, s, Reserve(s.gate, now, c.window, c.limit).0, now);
    } else {
      CountKeepsInv(c, s);
    }
  }

  lemma {:induction false} LastAttemptPast(g: Gate, attempts: seq<Attempt>, now: int)
    requires Limiter(g.windowStart, g.windowCount, attempts, now) && attempts != []
    ensures attempts[|attempts| - 1].time <= now
  {
    assert attempts[|attempts| - 1] in attempts;
  }

  lemma {:induction false} TrailingSnoc(results: seq<Result>, r: Result)
    ensures Trailing(results + [r]) ==
            match r case Success => 0 case Failure => Trailing(results) + 1 case Skipped => Trailing(results)
  {
    assert (results + [r])[..|results|] == results;
  }

  lemma {:induction false} RecordedGate(c: Config, g: Gate, result: Result, now: int, results: seq<Result>)
    requires ValidConfig(c) && g.rehandshakeFails == Trailing(results)
    requires g.backoff == BackoffAfter(g.rehandshakeFails, c.base, c.max)
    ensures var g' := Recorded(c, g, result, now);
            && g'.rehandshakeFails == Trailing(results + [result])
            && g'.backoff == BackoffAfter(g'.rehandshakeFails, c.base, c.max)
            && (result != Skipped ==> g'.nextAttempt.Some? && g'.nextAttempt.value >= now + c.base)
            && g'.windowStart == g.windowStart && g'.windowCount == g.windowCount && g'.inFlight == g.inFlight
  {
    hide NextBackoff, Trailing;
    TrailingSnoc(results, result);
    BackoffAtLeastBase(g.rehandshakeFails + 1, c.base, c.max);
  }

  lemma {:induction false} ResultKeepsSpacing(c: Config, attempts: seq<Attempt>, results: seq<Result>, r: Result)
    requires SpacedOut(c, attempts, results) && |attempts| == |results| + 1
    ensures SpacedOut(c, attempts, results + [r])
  {
  }

  lemma {:induction false} RecordKeepsInv(c: Config, s: State, task: nat, result: Result, now: int)
    requires ValidConfig(c) && Inv(c, s) && s.clock == now
    ensures Inv(c, OnRecord(c, s, task, result, now))
  {
    if task < |s.tasks| && s.tasks[task].None? {
      hide WindowsOk, Limiter, SpacedOut, Recorded, BackoffAfter, Trailing;
      assert s.tasks == [None];
      RecordedGate(c, s.gate, result, now, s.results);
      ResultKeepsSpacing(c, s.attempts, s.results, result);
      LastAttemptPast(s.gate, s.attempts, now);
    }
  }

  lemma {:induction false} NextKeepsInv(c: Config, s: State, e: Event)
    requires ValidConfig(c) && Inv(c, s)
    ensures Inv(c, Next(c, s, e))
  {
    if e.now >= s.clock {
      var s' := s.(clock := e.now);
      LimiterLater(s.gate, s.attempts, s.clock, e.now);
      assert Inv(c, s');
      match e
      case Undecryptable(now) => UndecryptableKeepsInv(c, s', now);
      case Decrypted(_) =>
      case Record(task, result, now) => RecordKeepsInv(c, s', task, result, now);
      case End(task, _) =>
    }
  }

  lemma {:induction false} RunKeepsInv(c: Config, s: State, events: seq<Event>)
    requires ValidConfig(c) && Inv(c, s)
    ensures Inv(c, Run(c, s, events))
  {
    if events != [] {
      RunKeepsInv(c, s, events[..|events| - 1]);
      NextKeepsInv(c, Run(c, s, events[..|events| - 1]), events[|events| - 1]);
    }
  }

  // ---- Results ----

  /** In an interval as long as the window, a third window has no place beside two others. */
  lemma {:induction false} OnlyTwoWindows(c: Config, attempts: seq<Attempt>, t: int, x: Attempt, y: Attempt, z: Attempt)
    requires WindowsOk(c, attempts) && x in attempts && y in attempts && z in attempts
    requires t <= x.time < t + c.window && t <= y.time < t + c.window && t <= z.time < t + c.window
    requires x.window != y.window
    ensures z.window == x.window || z.window == y.window
  {
  }

  /** Of a window that started before the interval, the opening attempt is not counted. */
  lemma {:induction false} EarlierWindowLosesOne(c: Config, attempts: seq<Attempt>, t: int, x: Attempt)
    requires WindowsOk(c, attempts) && x in attempts && x.window < t
    ensures Count(attempts, InOfWindow(t, t + c.window, x.window)) < c.limit
  {
    var hi := t + c.window;
    assert OpensAtStart(attempts, x.window);
    var y :| y in attempts && y.window == x.window && y.time == x.window;
    assert !InOfWindow(t, hi, x.window)(y) && OfWindow(x.window)(y);
    CountMonotone(attempts, InOfWindow(t, hi, x.window), OfWindow(x.window));
  }

  lemma {:induction false} TwoWindowBound(c: Config, attempts: seq<Attempt>, t: int, x: Attempt, y: Attempt)
    requires WindowsOk(c, attempts) && x in attempts && y in attempts && x.window < y.window
    requires t <= x.time < t + c.window && t <= y.time < t + c.window
    ensures Count(attempts, In(t, t + c.window)) <= 2 * c.limit - 1
  {
    var hi := t + c.window;
    forall z | z in attempts && In(t, hi)(z)
      ensures InOfWindow(t, hi, x.window)(z) || InOfWindow(t, hi, y.window)(z)
    {
      OnlyTwoWindows(c, attempts, t, x, y, z);
    }
    CountCover(attempts, In(t, hi), InOfWindow(t, hi, x.window), InOfWindow(t, hi, y.window));
    CountMonotone(attempts, InOfWindow(t, hi, y.window), OfWindow(y.window));
    EarlierWindowLosesOne(c, attempts, t, x);
  }

  lemma {:induction false} WindowBound(c: Config, attempts: seq<Attempt>, t: int)
    requires ValidConfig(c) && WindowsOk(c, attempts)
    ensures Count(attempts, In(t, t + c.window)) <= 2 * c.limit - 1
  {
    var hi := t + c.window;
    if x :| x in attempts && t <= x.time < hi {
      if y :| y in attempts && t <= y.time < hi && y.window != x.window {
        if x.window < y.window {
          TwoWindowBound(c, attempts, t, x, y);
        } else {
          TwoWindowBound(c, attempts, t, y, x);
        }
      } else {
        CountMonotone(attempts, In(t, hi), OfWindow(x.window));
      }
    } else {
      CountZero(attempts, In(t, hi));
    }
  }

  /**
    Sliding-window bound. In every run at most 2 * limit - 1 attempts are admitted in any half-open interval
    as long as the window: a fixed window always opens with an admission at its start, so an interval that
    reaches into two windows misses that one.
  */
  lemma {:induction false} SlidingWindow(c: Config, now: int, events: seq<Event>, t: int)
    requires ValidConfig(c)
    ensures Count(Run(c, Init(now), events).attempts, In(t, t + c.window)) <= 2 * c.limit - 1
  {
    RunKeepsInv(c, Init(now), events);
    WindowBound(c, Run(c, Init(now), events).attempts, t);
  }

  lemma {:induction false} RunAppend(c: Config, s: State, xs: seq<Event>, ys: seq<Event>)
    ensures Run(c, s, xs + ys) == Run(c, Run(c, s, xs), ys)
  {
    if ys == [] {
      assert xs + ys == xs;
    } else {
      assert (xs + ys)[..|xs + ys| - 1] == xs + ys[..|ys| - 1];
      RunAppend(c, s, xs, ys[..|ys| - 1]);
    }
  }

  /** Nothing in flight, no backoff, and k attempts made in the window from w. */
  predicate Idle(s: State, w: int, k: nat) {
    Ready(s) && s.gate.windowStart == Some(w) && s.gate.windowCount == k
  }

  predicate Ready(s: State) {
    s.tasks == [] && !s.gate.inFlight && s.gate.nextAttempt.None?
  }

  predicate OpensWindow(c: Config, s: State, t: int) {
    s.gate.windowStart.None? || t - s.gate.windowStart.value >= c.window
  }

  /** Failures at t bring the counter to one below the threshold. */
  lemma {:induction false} WarmUp(c: Config, s: State, t: int) returns (events: seq<Event>)
    requires ValidConfig(c) && Ready(s) && s.clock <= t
    ensures var s' := Run(c, s, events);
            && s'.gate == s.gate.(decryptFails := s'.gate.decryptFails) && s'.gate.decryptFails + 1 >= c.threshold
            && s'.tasks == [] && s'.clock <= t && s'.attempts == s.attempts
    decreases c.threshold - s.gate.decryptFails
  {
    events := [];
    if s.gate.decryptFails + 1 < c.threshold {
      var first := [Undecryptable(t)];
      UndecryptableCases(c, s.(clock := t), t);
      var s1 := Counted(s.(clock := t));
      assert first[..0] == [] && Run(c, s, first) == Next(c, s, first[0]) == s1;
      var rest := WarmUp(c, s1, t);
      RunAppend(c, s, first, rest);
      events := first + rest;
    }
  }

  /** From one below the threshold, a failure at t is admitted; its attempt is then skipped. */
  lemma {:induction false} AdmitAndSkip(c: Config, s: State, t: int) returns (events: seq<Event>, a: Attempt)
    requires ValidConfig(c) && Ready(s) && s.clock <= t && s.gate.decryptFails + 1 >= c.threshold
    requires OpensWindow(c, s, t) || s.gate.windowCount < c.limit
    ensures var s' := Run(c, s, events);
            && Idle(s', if OpensWindow(c, s, t) then t else s.gate.windowStart.value,
                    if OpensWindow(c, s, t) then 1 else s.gate.windowCount + 1)
            && s'.clock == t
            && s'.attempts == s.attempts + [a] && a.time == t
  {
    UndecryptableCases(c, s.(clock := t), t);
    var s1 := Next(c, s, Undecryptable(t));
    assert s1.tasks == [None];
    a := s1.attempts[|s.attempts|];
    var s2 := Next(c, s1, Record(0, Skipped, t));
    var s3 := Next(c, s2, End(0, t));
    events := [Undecryptable(t), Record(0, Skipped, t), End(0, t)];
    assert events[..2] == [Undecryptable(t), Record(0, Skipped, t)] && events[..2][..1] == [Undecryptable(t)];
    assert Run(c, s, [Undecryptable(t)]) == s1 by {
      assert [Undecryptable(t)][..0] == [];
    }
    assert Run(c, s, events[..2]) == s2;
  }

  lemma {:induction false} OneAttempt(c: Config, s: State, t: int) returns (events: seq<Event>, a: Attempt)
    requires ValidConfig(c) && Ready(s) && s.clock <= t
    requires OpensWindow(c, s, t) || s.gate.windowCount < c.limit
    ensures var s' := Run(c, s, events);
            && Idle(s', if OpensWindow(c, s, t) then t else s.gate.windowStart.value,
                    if OpensWindow(c, s, t) then 1 else s.gate.windowCount + 1)
            && s'.clock == t
            && s'.attempts == s.attempts + [a] && a.time == t
  {
    var first := WarmUp(c, s, t);
    var s1 := Run(c, s, first);
    var rest;
    rest, a := AdmitAndSkip(c, s1, t);
    RunAppend(c, s, first, rest);
    events := first + rest;
  }

  lemma {:induction false} ManyAttempts(c: Config, s: State, t: int, n: nat, lo: int,
                                        hi: int) returns (events: seq<Event>)
    requires ValidConfig(c) && s.clock <= t && lo <= t < hi
    requires s.gate.windowStart.Some? && Idle(s, s.gate.windowStart.value, s.gate.windowCount)
    requires t - s.gate.windowStart.value < c.window && s.gate.windowCount + n <= c.limit
    ensures var s' := Run(c, s, events);
            && Idle(s', s.gate.windowStart.value, s.gate.windowCount + n)
            && s'.clock <= t
            && Count(s'.attempts, In(lo, hi)) == Count(s.attempts, In(lo, hi)) + n
    decreases n
  {
    events := [];
    if n > 0 {
      var first, a := OneAttempt(c, s, t);
      var s1 := Run(c, s, first);
      CountSnoc(s.attempts, a, In(lo, hi));
      var rest := ManyAttempts(c, s1, t, n - 1, lo, hi);
      RunAppend(c, s, first, rest);
      events := first + rest;
    }
  }

  /** A window's worth of attempts at its end and another at the start of the next one. */
  lemma {:induction false} FillTwoWindows(c: Config, s: State, now: int, t: int) returns (events: seq<Event>)
    requires ValidConfig(c) && c.window >= 2 && t == now + c.window - 1
    requires Idle(s, now, 1) && s.clock == now && Count(s.attempts, In(t, t + c.window)) == 0
    ensures Count(Run(c, s, events).attempts, In(t, t + c.window)) == 2 * c.limit - 1
  {
    var hi := t + c.window;
    var e1 := ManyAttempts(c, s, t, c.limit - 1, t, hi);
    var s1 := Run(c, s, e1);
    var e2, a := OneAttempt(c, s1, t + 1);
    var s2 := Run(c, s1, e2);
    CountSnoc(s1.attempts, a, In(t, hi));
    var e3 := ManyAttempts(c, s2, t + 1, c.limit - 1, t, hi);
    RunAppend(c, s, e1, e2);
    RunAppend(c, s, e1 + e2, e3);
    events := e1 + e2 + e3;
  }

  /** The bound is exact: under every configuration with a window of at least two, some run reaches 2 * limit - 1. */
  lemma {:induction false} SlidingWindowIsTight(c: Config, now: int) returns (events: seq<Event>, t: int)
    requires ValidConfig(c) && c.window >= 2
    ensures Count(Run(c, Init(now), events).attempts, In(t, t + c.window)) == 2 * c.limit - 1
  {
    t := now + c.window - 1;
    var e1, a := OneAttempt(c, Init(now), now);
    var s1 := Run(c, Init(now), e1);
    CountZero(s1.attempts, In(t, t + c.window));
    var e2 := FillTwoWindows(c, s1, now, t);
    RunAppend(c, Init(now), e1, e2);
    events := e1 + e2;
  }

  /**
    Attempt spacing. In every run at most one re-handshake is in flight, and an attempt follows the previous
    one by at least the base backoff unless that one was skipped.
  */
  lemma {:induction false} AttemptSpacing(c: Config, now: int, events: seq<Event>)
    requires ValidConfig(c)
    ensures var s := Run(c, Init(now), events);
            && |s.tasks| <= 1
            && (s.gate.inFlight <==> s.tasks != [])
            && SpacedOut(c, s.attempts, s.results)
  {
    RunKeepsInv(c, Init(now), events);
  }

  // ---- What leads to an attempt ----

  /** Event i was not dated before the clock. */
  predicate Effective(c: Config, now: int, events: seq<Event>, i: nat)
    requires i < |events|
  {
    Run(c, Init(now), events[..i]).clock <= events[i].now
  }

  /** Event i started an attempt. */
  predicate AdmittedAt(c: Config, now: int, events: seq<Event>, i: nat)
    requires i < |events|
  {
    |Run(c, Init(now), events[..i + 1]).attempts| > |Run(c, Init(now), events[..i]).attempts|
  }

  /** The packets that did not decrypt among the events from p up to n. */
  function FailuresIn(c: Config, now: int, events: seq<Event>, p: nat, n: nat): nat
    requires p <= n <= |events|
  {
    if p == n then 0
    else FailuresIn(c, now, events, p, n - 1)
         + if events[n - 1].Undecryptable? && Effective(c, now, events, n - 1) then 1 else 0
  }

  /** From p up to n nothing decrypted and nothing was admitted. */
  predicate Uninterrupted(c: Config, now: int, events: seq<Event>, p: nat, n: nat)
    requires p <= n <= |events|
  {
    forall i :: p <= i < n ==>
      !AdmittedAt(c, now, events, i) && !(events[i].Decrypted? && Effective(c, now, events, i))
  }

  /** What one event does to the counter and to the list of attempts. */
  lemma {:induction false} CounterStep(c: Config, s: State, e: Event)
    requires ValidConfig(c)
    ensures var s' := Next(c, s, e);
            if e.now < s.clock then s' == s
            else if |s'.attempts| > |s.attempts| then
              e.Undecryptable? && s.gate.decryptFails + 1 >= c.threshold && s'.gate.decryptFails == 0
            else s'.gate.decryptFails ==
                 if e.Undecryptable? then s.gate.decryptFails + 1 else if e.Decrypted? then 0 else s.gate.decryptFails
  {
    if e.Undecryptable? {
      UndecryptableCases(c, s.(clock := e.now), e.now);
    }
  }

  lemma {:induction false} RunStep(c: Config, now: int, events: seq<Event>, n: nat)
    requires n < |events|
    ensures Run(c, Init(now), events[..n + 1]) == Next(c, Run(c, Init(now), events[..n]), events[n])
  {
    assert events[..n + 1][..n] == events[..n];
  }

  lemma {:induction false} StretchGrows(c: Config, now: int, events: seq<Event>, q: nat, n: nat) returns (p: nat)
    requires ValidConfig(c) && q <= n < |events| && Uninterrupted(c, now, events, q, n)
    requires FailuresIn(c, now, events, q, n) == Run(c, Init(now), events[..n]).gate.decryptFails
    ensures p <= n + 1 && Uninterrupted(c, now, events, p, n + 1)
    ensures FailuresIn(c, now, events, p, n + 1) == Run(c, Init(now), events[..n + 1]).gate.decryptFails
  {
    hide Run, Next;
    var e, s := events[n], Run(c, Init(now), events[..n]);
    RunStep(c, now, events, n);
    CounterStep(c, s, e);
    var broken := AdmittedAt(c, now, events, n) || (e.Decrypted? && Effective(c, now, events, n));
    p := if broken then n + 1 else q;
  }

  /** The decrypt-failure counter counts the failures of an uninterrupted stretch of events. */
  lemma {:induction false} CounterMeans(c: Config, now: int, events: seq<Event>, n: nat) returns (p: nat)
    requires ValidConfig(c) && n <= |events|
    ensures p <= n && Uninterrupted(c, now, events, p, n)
    ensures FailuresIn(c, now, events, p, n) == Run(c, Init(now), events[..n]).gate.decryptFails
    decreases n
  {
    hide Next, AdmittedAt, Effective;
    if n == 0 {
      p := 0;
    } else {
      p := CounterMeans(c, now, events, n - 1);
      p := StretchGrows(c, now, events, p, n - 1);
    }
  }

  /**
    Desync is what drives recovery. In every run, an event that starts an attempt ends a stretch of events with
    at least `threshold` packets that did not decrypt, in which no packet decrypted and no other attempt
    started.
  */
  lemma {:induction false} FailuresPerAttempt(c: Config, now: int, events: seq<Event>, m: nat) returns (p: nat)
    requires ValidConfig(c) && m < |events| && AdmittedAt(c, now, events, m)
    ensures p <= m && Uninterrupted(c, now, events, p, m)
    ensures events[m].Undecryptable? && FailuresIn(c, now, events, p, m + 1) >= c.threshold
  {
    hide Run, Next;
    p := CounterMeans(c, now, events, m);
    RunStep(c, now, events, m);
    CounterStep(c, Run(c, Init(now), events[..m]), events[m]);
  }

  /**
    In every run the failure count is the number of failures in a row, skipped attempts aside, and the backoff
    after k of them is min(base * 2^(k-1), max); a success clears both.
  */
  lemma {:induction false} RunBackoff(c: Config, now: int, events: seq<Event>)
    requires ValidConfig(c) && c.max < TWO_63 && (c.max < TWO_62 || c.base == c.max)
    ensures var s := Run(c, Init(now), events);
            var k := Trailing(s.results);
            && s.gate.rehandshakeFails == k
            && s.gate.backoff == if k == 0 then 0 else ClosedForm(k, c.base, c.max)
  {
    RunKeepsInv(c, Init(now), events);
    var k := Trailing(Run(c, Init(now), events).results);
    if k >= 1 {
      BackoffClosedForm(k, c.base, c.max);
    }
  }

  /**
    In every run, a task that reports at time t moves the earliest next attempt to t plus the backoff of its
    failure, or to t plus the base backoff after a success, and leaves it alone when it was skipped.
  */
  lemma {:induction false} ReportSetsNextAttempt(c: Config, now: int, events: seq<Event>, result: Result, t: int)
    requires ValidConfig(c) && c.max < TWO_63 && (c.max < TWO_62 || c.base == c.max)
    requires var s := Run(c, Init(now), events); s.clock <= t && s.tasks == [None]
    ensures var s := Run(c, Init(now), events);
            var s' := Run(c, Init(now), events + [Record(0, result, t)]);
            && s'.results == s.results + [result]
            && s'.gate.nextAttempt ==
               match result
               case Failure => Some(t + ClosedForm(Trailing(s.results) + 1, c.base, c.max))
               case Success => Some(t + c.base)
               case Skipped => s.gate.nextAttempt
  {
    hide Inv, Run;
    RunSnoc(c, Init(now), events, Record(0, result, t));
    FailuresAre(c, now, events);
    ReportStep(c, Run(c, Init(now), events), result, t);
  }

  lemma {:induction false} RunSnoc(c: Config, s: State, events: seq<Event>, e: Event)
    ensures Run(c, s, events + [e]) == Next(c, Run(c, s, events), e)
  {
    assert (events + [e])[..|events|] == events;
  }

  lemma {:induction false} FailuresAre(c: Config, now: int, events: seq<Event>)
    requires ValidConfig(c)
    ensures var s := Run(c, Init(now), events);
            var k := Trailing(s.results);
            s.gate.rehandshakeFails == k && s.gate.backoff == BackoffAfter(k, c.base, c.max)
  {
    hide Run;
    RunKeepsInv(c, Init(now), events);
  }

  lemma {:induction false} ReportStep(c: Config, s: State, result: Result, t: int)
    requires ValidConfig(c) && c.max < TWO_63 && (c.max < TWO_62 || c.base == c.max)
    requires s.clock <= t && s.tasks == [None]
    requires var k := Trailing(s.results);
             s.gate.rehandshakeFails == k && s.gate.backoff == BackoffAfter(k, c.base, c.max)
    ensures var s' := Next(c, s, Record(0, result, t));
            && s'.results == s.results + [result]
            && s'.gate.nextAttempt ==
               match result
               case Failure => Some(t + ClosedForm(Trailing(s.results) + 1, c.base, c.max))
               case Success => Some(t + c.base)
               case Skipped => s.gate.nextAttempt
  {
    hide ClosedForm, NextBackoff;
    BackoffClosedForm(Trailing(s.results) + 1, c.base, c.max);
  }

  // ---- A refusal stands until its wait is over ----

  predicate Blocked(c: Config, g: Gate, until: int) {
    || (g.nextAttempt.Some? && until <= g.nextAttempt.value)
    || (g.windowStart.Some? && g.windowCount >= c.limit && until <= g.windowStart.value + c.window)
  }

  lemma {:induction false} BlockedStep(c: Config, s: State, e: Event, until: int)
    requires ValidConfig(c) && s.tasks == [] && Blocked(c, s.gate, until) && e.now < until
    ensures var s' := Next(c, s, e);
            s'.tasks == [] && Blocked(c, s'.gate, until) && s'.attempts == s.attempts
  {
    if e.Undecryptable? {
      UndecryptableCases(c, s.(clock := e.now), e.now);
    }
  }

  lemma {:induction false} BlockedRun(c: Config, s: State, events: seq<Event>, until: int)
    requires ValidConfig(c) && s.tasks == [] && Blocked(c, s.gate, until)
    requires forall i :: 0 <= i < |events| ==> events[i].now < until
    ensures var s' := Run(c, s, events);
            s'.tasks == [] && Blocked(c, s'.gate, until) && s'.attempts == s.attempts
  {
    if events != [] {
      BlockedRun(c, s, events[..|events| - 1], until);
      BlockedStep(c, Run(c, s, events[..|events| - 1]), events[|events| - 1], until);
    }
  }

  /** The gate refuses with a positive wait, and every later trigger before it is over is refused too. */
  lemma {:induction false} RefusalStands(c: Config, now: int, events: seq<Event>, t: int, more: seq<Event>)
    requires ValidConfig(c)
    requires var s := Run(c, Init(now), events);
             s.clock <= t && Trigger(s.gate, c, t).1.Refused?
    requires var s := Run(c, Init(now), events);
             forall i :: 0 <= i < |more| ==> more[i].now < t + Trigger(s.gate, c, t).1.wait
    ensures var s := Run(c, Init(now), events);
            && Trigger(s.gate, c, t).1.wait > 0
            && Run(c, s, more).attempts == s.attempts
  {
    RunKeepsInv(c, Init(now), events);
    var s := Run(c, Init(now), events);
    BlockedRun(c, s, more, t + Trigger(s.gate, c, t).1.wait);
  }
}
