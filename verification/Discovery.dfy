/**
  Throttling of connects to discovered peers (node/discovery.go): a bounded table of recent keys and a
  semaphore. Trimming may break ties either way, so the steps are relations.
*/
module Discovery {
  const CONCURRENCY := 8
  const COOLDOWN := 10_000_000_000
  const PRUNE_THRESHOLD := 256
  const HARD_LIMIT := 1024

  /** From key (peer and address) to the end of its cooldown. */
  type Seen = map<string, int>

  function Prune(seen: Seen, now: int): Seen {
    map k | k in seen && now < seen[k] :: seen[k]
  }

  /** Keep targetSize entries, dropping those that expire first. */
  predicate IsTrim(seen: Seen, targetSize: nat, kept: Seen) {
    && kept.Keys <= seen.Keys
    && (forall k :: k in kept ==> kept[k] == seen[k])
    && (if |seen| <= targetSize then kept == seen else |kept| == targetSize)
    && (forall k, k' :: k in seen && k !in kept && k' in kept ==> seen[k] <= kept[k'])
  }

  /** The table when the first critical section looks the key up. */
  function Swept(seen: Seen, now: int): Seen {
    if |seen| > PRUNE_THRESHOLD then Prune(seen, now) else seen
  }

  predicate CoolingDown(seen: Seen, key: string, now: int) {
    key in Swept(seen, now) && now < Swept(seen, now)[key]
  }

  /** Making room: nothing below the hard limit, else prune, else trim. */
  predicate MakesRoom(seen: Seen, now: int, room: Seen) {
    if |seen| < HARD_LIMIT then room == seen
    else if |Prune(seen, now)| < HARD_LIMIT then room == Prune(seen, now)
    else IsTrim(Prune(seen, now), HARD_LIMIT - 1, room)
  }

  /** The first critical section of tryBeginDiscoveryConnect. */
  ghost predicate Stores(seen: Seen, key: string, now: int, seen': Seen, stored: bool) {
    if CoolingDown(seen, key, now) then !stored && seen' == Swept(seen, now)
    else stored && exists room :: MakesRoom(Swept(seen, now), now, room) && seen' == room[key := now + COOLDOWN]
  }

  lemma {:induction false} SubmapSize(small: Seen, big: Seen)
    requires small.Keys <= big.Keys
    ensures |small| <= |big|
  {
    assert |small.Keys| <= |big.Keys| by {
      SubsetSize(small.Keys, big.Keys);
    }
  }

  lemma {:induction false} SubsetSize(small: set<string>, big: set<string>)
    requires small <= big
    ensures |small| <= |big|
  {
    assert big == small + (big - small);
  }

  lemma {:induction false} InsertSize(seen: Seen, key: string, until: int)
    ensures |seen[key := until]| <= |seen| + 1
  {
    assert seen[key := until].Keys == seen.Keys + {key};
  }

  lemma {:induction false} StoreKeepsBound(seen: Seen, key: string, now: int, seen': Seen, stored: bool)
    requires |seen| <= HARD_LIMIT && Stores(seen, key, now, seen', stored)
    ensures |seen'| <= HARD_LIMIT
  {
    var swept := Swept(seen, now);
    SubmapSize(swept, seen);
    if stored {
      var room :| MakesRoom(swept, now, room) && seen' == room[key := now + COOLDOWN];
      assert |room| < HARD_LIMIT;
      InsertSize(room, key, now + COOLDOWN);
    }
  }

  // ---- Any interleaving of the two critical sections ----

  /** `stored` calls are between the table and the semaphore, `failing` ones on their way to undo. */
  datatype State = State(seen: Seen, held: nat, running: nat, stored: seq<string>, failing: seq<string>)

  const INITIAL := State(map[], 0, 0, [], [])

  ghost predicate StoreStep(s: State, s': State, key: string, now: int) {
    exists stored :: Stores(s.seen, key, now, s'.seen, stored)
                     && s' == s.(seen := s'.seen, stored := if stored then s.stored + [key] else s.stored)
  }

  predicate AcquireStep(s: State, s': State, i: nat) {
    && i < |s.stored|
    && var others := s.stored[..i] + s.stored[i + 1..];
    if s.held < CONCURRENCY then s' == s.(stored := others, held := s.held + 1, running := s.running + 1)
    else s' == s.(stored := others, failing := s.failing + [s.stored[i]])
  }

  predicate UndoStep(s: State, s': State, i: nat) {
    i < |s.failing| && s' == s.(seen := s.seen - {s.failing[i]}, failing := s.failing[..i] + s.failing[i + 1..])
  }

  /** A connect ends; endDiscoveryConnect releases a slot if there is one to release. */
  predicate EndStep(s: State, s': State) {
    s.running > 0 && s' == s.(running := s.running - 1, held := if s.held > 0 then s.held - 1 else 0)
  }

  ghost predicate Next(s: State, s': State) {
    || (exists key, now :: StoreStep(s, s', key, now))
    || (exists i: nat :: AcquireStep(s, s', i))
    || (exists i: nat :: UndoStep(s, s', i))
    || EndStep(s, s')
  }

  ghost predicate IsRun(states: seq<State>) {
    && states != [] && states[0] == INITIAL
    && forall i :: 0 <= i < |states| - 1 ==> Next(states[i], states[i + 1])
  }

  predicate Bounded(s: State) {
    |s.seen| <= HARD_LIMIT && s.held == s.running <= CONCURRENCY
  }

  lemma {:induction false} NextKeepsBounded(s: State, s': State)
    requires Bounded(s) && Next(s, s')
    ensures Bounded(s')
  {
    if key, now :| StoreStep(s, s', key, now) {
      var stored :| Stores(s.seen, key, now, s'.seen, stored);
      StoreKeepsBound(s.seen, key, now, s'.seen, stored);
    } else if i: nat :| UndoStep(s, s', i) {
      SubmapSize(s'.seen, s.seen);
    }
  }

  /**
    Under every interleaving the table never exceeds its hard limit, and the held semaphore slots are exactly
    the running connects, at most eight.
  */
  lemma {:induction false} InterleavingsBounded(states: seq<State>, i: nat)
    requires IsRun(states) && i < |states|
    ensures Bounded(states[i])
  {
    if i > 0 {
      InterleavingsBounded(states, i - 1);
      assert Next(states[i - 1], states[i - 1 + 1]);
      NextKeepsBounded(states[i - 1], states[i]);
    }
  }

  // ---- Atomic calls ----

  datatype Table = Table(seen: Seen, held: nat)

  datatype Event = Try(key: string, now: int, admitted: bool) | End(now: int)

  /** tryBeginDiscoveryConnect without interference. */
  ghost predicate Tries(t: Table, key: string, now: int, admitted: bool, t': Table) {
    exists seen', stored :: Stores(t.seen, key, now, seen', stored)
      && admitted == (stored && t.held < CONCURRENCY)
      && t' == if admitted then Table(seen', t.held + 1)
               else Table(if stored then seen' - {key} else seen', t.held)
  }

  ghost predicate AtomicStep(t: Table, e: Event, t': Table) {
    match e
    case Try(key, now, admitted) => Tries(t, key, now, admitted, t')
    case End(_) => t.held > 0 && t' == t.(held := t.held - 1)
  }

  ghost predicate IsAtomicRun(tables: seq<Table>, events: seq<Event>) {
    && |tables| == |events| + 1
    && (forall i :: 0 <= i < |events| ==> AtomicStep(tables[i], events[i], tables[i + 1]))
    && (forall i, j :: 0 <= i < j < |events| ==> events[i].now <= events[j].now)
  }

  /** A call is admitted exactly when its key is not in its cooldown and a slot is free. */
  lemma {:induction false} AdmittedExactly(t: Table, key: string, now: int, admitted: bool, t': Table)
    requires Tries(t, key, now, admitted, t')
    ensures admitted <==> !(key in t.seen && now < t.seen[key]) && t.held < CONCURRENCY
    ensures admitted ==> key in t'.seen && t'.seen[key] == now + COOLDOWN && t'.held == t.held + 1
    ensures !admitted ==> t'.held == t.held
  {
  }

  /** The connects running after a list of events. */
  function Running(events: seq<Event>): int {
    if events == [] then 0
    else
      match events[|events| - 1]
      case Try(_, _, admitted) => Running(events[..|events| - 1]) + if admitted then 1 else 0
      case End(_) => Running(events[..|events| - 1]) - 1
  }

  lemma {:induction false} HeldIsRunning(tables: seq<Table>, events: seq<Event>, m: nat)
    requires IsAtomicRun(tables, events) && tables[0].held == 0 && m < |tables|
    ensures tables[m].held == Running(events[..m])
  {
    if m > 0 {
      HeldIsRunning(tables, events, m - 1);
      assert AtomicStep(tables[m - 1], events[m - 1], tables[m - 1 + 1]);
      assert events[..m][..m - 1] == events[..m - 1];
    }
  }

  /**
    Refusals are justified. From an empty table on, a refused call had its key admitted less than a cooldown
    before, or all eight slots in use.
  */
  lemma {:induction false} RefusalsJustified(tables: seq<Table>, events: seq<Event>, j: nat, key: string, now: int)
    requires IsAtomicRun(tables, events) && tables[0] == Table(map[], 0)
    requires j < |events| && events[j] == Try(key, now, false)
    ensures || Running(events[..j]) >= CONCURRENCY
            || exists n, t :: 0 <= n < j && events[n] == Try(key, t, true) && now < t + COOLDOWN
  {
    assert AtomicStep(tables[j], events[j], tables[j + 1]);
    AdmittedExactly(tables[j], key, now, false, tables[j + 1]);
    HeldIsRunning(tables, events, j);
    if tables[j].held < CONCURRENCY {
      var n := EntriesAreAdmissions(tables, events, j, key);
    }
  }

  function AsState(t: Table): State {
    State(t.seen, t.held, t.held, [], [])
  }

  /** A call without interference is a run of the two critical sections and, where no slot is free, the undo. */
  lemma {:induction false} CallIsInterleaving(t: Table, key: string, now: int, admitted: bool, t': Table)
    returns (states: seq<State>)
    requires Tries(t, key, now, admitted, t')
    ensures states != [] && states[0] == AsState(t) && states[|states| - 1] == AsState(t')
    ensures forall i :: 0 <= i < |states| - 1 ==> Next(states[i], states[i + 1])
  {
    hide Stores;
    var seen', stored :| Stores(t.seen, key, now, seen', stored)
      && admitted == (stored && t.held < CONCURRENCY)
      && t' == if admitted then Table(seen', t.held + 1)
               else Table(if stored then seen' - {key} else seen', t.held);
    var s0 := AsState(t);
    var s1 := s0.(seen := seen', stored := if stored then [key] else []);
    assert StoreStep(s0, s1, key, now);
    states := [s0, s1];
    if admitted {
      assert AcquireStep(s1, AsState(t'), 0);
      states := [s0, s1, AsState(t')];
    } else if stored {
      var s2 := s1.(stored := [], failing := [key]);
      assert AcquireStep(s1, s2, 0);
      assert UndoStep(s2, AsState(t'), 0);
      states := [s0, s1, s2, AsState(t')];
    }
  }

  /** So every run of calls one at a time is a run of the interleaved system. */
  lemma {:induction false} EventIsInterleaving(t: Table, e: Event, t': Table) returns (states: seq<State>)
    requires AtomicStep(t, e, t')
    ensures states != [] && states[0] == AsState(t) && states[|states| - 1] == AsState(t')
    ensures forall i :: 0 <= i < |states| - 1 ==> Next(states[i], states[i + 1])
  {
    match e
    case Try(key, now, admitted) => states := CallIsInterleaving(t, key, now, admitted, t');
    case End(_) =>
      assert EndStep(AsState(t), AsState(t'));
      states := [AsState(t), AsState(t')];
  }

  /** The entries that expire no earlier than `until`, that is, were stored no earlier than until - COOLDOWN. */
  function Recent(seen: Seen, until: int): set<string> {
    set k | k in seen && seen[k] >= until
  }

  predicate Remembers(t: Table, key: string, until: int) {
    key in t.seen && t.seen[key] >= until
  }

  /** A trim that drops a recent key leaves only recent ones. */
  lemma {:induction false} TrimOfRecent(seen: Seen, now: int, room: Seen, key: string, until: int)
    requires MakesRoom(seen, now, room) && now < until
    requires key in seen && seen[key] >= until && key !in room
    ensures |Recent(seen, until)| >= HARD_LIMIT
  {
    var pruned := Prune(seen, now);
    assert key in pruned;
    assert room.Keys + {key} <= Recent(seen, until);
    SubsetSize(room.Keys + {key}, Recent(seen, until));
    assert |room.Keys + {key}| == |room.Keys| + 1;
  }

  lemma {:induction false} SweepKeepsRecent(seen: Seen, now: int, key: string)
    requires key in seen && now < seen[key]
    ensures CoolingDown(seen, key, now) && Swept(seen, now)[key] == seen[key]
  {
  }

  lemma {:induction false} StoreForgets(seen: Seen, other: string, now: int, seen': Seen, key: string, until: int)
    requires Stores(seen, other, now, seen', true) && other != key
    requires key in seen && seen[key] >= until > now && key !in seen'
    ensures |Recent(seen, until)| >= HARD_LIMIT
  {
    var swept := Swept(seen, now);
    SweepKeepsRecent(seen, now, key);
    var room :| MakesRoom(swept, now, room) && seen' == room[other := now + COOLDOWN];
    TrimOfRecent(swept, now, room, key, until);
    SubsetSize(Recent(swept, until), Recent(seen, until));
  }

  lemma {:induction false} StoreKeepsUntil(seen: Seen, other: string, now: int, seen': Seen, stored: bool, key: string)
    requires Stores(seen, other, now, seen', stored) && other != key && key in seen && key in seen'
    ensures seen'[key] == seen[key]
  {
    if stored {
      var room :| MakesRoom(Swept(seen, now), now, room) && seen' == room[other := now + COOLDOWN];
    }
  }

  /** Only a full table of entries no older forgets a key before its time. */
  lemma {:induction false} ForgettingNeedsFullTable(t: Table, e: Event, t': Table, key: string, until: int)
    requires AtomicStep(t, e, t') && Remembers(t, key, until) && !Remembers(t', key, until)
    requires e.now < until
    ensures |Recent(t.seen, until)| >= HARD_LIMIT
  {
    if e.Try? {
      SweepKeepsRecent(t.seen, e.now, key);
      var seen', stored :| Stores(t.seen, e.key, e.now, seen', stored)
        && t' == if e.admitted then Table(seen', t.held + 1)
                 else Table(if stored then seen' - {e.key} else seen', t.held);
      if stored {
        if key in seen' {
          StoreKeepsUntil(t.seen, e.key, e.now, seen', stored, key);
        } else {
          StoreForgets(t.seen, e.key, e.now, seen', key, until);
        }
      }
    }
  }

  lemma {:induction false} FirstForgotten(tables: seq<Table>, i: nat, j: nat, key: string, until: int) returns (m: nat)
    requires i < j < |tables| && Remembers(tables[i], key, until) && !Remembers(tables[j], key, until)
    ensures i <= m < j && Remembers(tables[m], key, until) && !Remembers(tables[m + 1], key, until)
    decreases j - i
  {
    if Remembers(tables[i + 1], key, until) {
      m := FirstForgotten(tables, i + 1, j, key, until);
    } else {
      m := i;
    }
  }

  /**
    Early re-admission needs a full table. If a key admitted at t1 is admitted again before t1 plus the
    cooldown, then some call in between dropped the entry stored at t1 or later from a table that held 1024
    entries none of which was stored before t1.
  */
  lemma {:induction false} EarlyReadmission(tables: seq<Table>, events: seq<Event>, i: nat, j: nat, key: string,
                                            t1: int, t2: int)
    requires IsAtomicRun(tables, events) && i < j < |events|
    requires events[i] == Try(key, t1, true) && events[j] == Try(key, t2, true) && t2 < t1 + COOLDOWN
    ensures exists m :: i < m < j && Remembers(tables[m], key, t1 + COOLDOWN) && key !in tables[m + 1].seen
                        && |Recent(tables[m].seen, t1 + COOLDOWN)| >= HARD_LIMIT
  {
    var until := t1 + COOLDOWN;
    assert AtomicStep(tables[i], events[i], tables[i + 1]);
    assert Remembers(tables[i + 1], key, until);
    assert AtomicStep(tables[j], events[j], tables[j + 1]);
    assert !Remembers(tables[j], key, until);
    var m := FirstForgotten(tables, i + 1, j, key, until);
    assert AtomicStep(tables[m], events[m], tables[m + 1]);
    ForgettingNeedsFullTable(tables[m], events[m], tables[m + 1], key, until);
    if key in tables[m + 1].seen {
      SweepKeepsRecent(tables[m].seen, events[m].now, key);
      StepKeepsEntry(tables[m], events[m], tables[m + 1], key);
    }
  }

  /** From an empty table on, every entry is an admitted call, made one cooldown before the entry expires. */
  lemma {:induction false} EntriesAreAdmissions(tables: seq<Table>, events: seq<Event>, m: nat,
                                                k: string) returns (n: nat)
    requires IsAtomicRun(tables, events) && tables[0].seen == map[] && m < |tables| && k in tables[m].seen
    ensures n < m && events[n] == Try(k, tables[m].seen[k] - COOLDOWN, true)
    decreases m
  {
    var t, t', e := tables[m - 1], tables[m], events[m - 1];
    assert AtomicStep(t, e, tables[m - 1 + 1]);
    if e.Try? && e.key == k && e.admitted {
      n := m - 1;
    } else {
      StepKeepsEntry(t, e, t', k);
      n := EntriesAreAdmissions(tables, events, m - 1, k);
    }
  }

  lemma {:induction false} StoreOrigin(seen: Seen, key: string, now: int, seen': Seen, stored: bool, k: string)
    requires Stores(seen, key, now, seen', stored) && k in seen' && (k != key || !stored)
    ensures k in seen && seen[k] == seen'[k]
  {
    if stored {
      var room :| MakesRoom(Swept(seen, now), now, room) && seen' == room[key := now + COOLDOWN];
    }
  }

  /** An entry not written by this step was there before. */
  lemma {:induction false} StepKeepsEntry(t: Table, e: Event, t': Table, k: string)
    requires AtomicStep(t, e, t') && k in t'.seen && !(e.Try? && e.key == k && e.admitted)
    ensures k in t.seen && t.seen[k] == t'.seen[k]
  {
    hide Stores;
    if e.Try? {
      var seen', stored :| Stores(t.seen, e.key, e.now, seen', stored)
        && e.admitted == (stored && t.held < CONCURRENCY)
        && t' == if e.admitted then Table(seen', t.held + 1)
                 else Table(if stored then seen' - {e.key} else seen', t.held);
      StoreOrigin(t.seen, e.key, e.now, seen', stored, k);
    }
  }

  // ---- The table and the semaphore as the source updates them ----

  datatype SeenEntry = SeenEntry(key: string, until: int)

  /** A list of some entries of the table, each key once. */
  predicate Lists(seen: Seen, entries: seq<SeenEntry>) {
    && (forall i :: 0 <= i < |entries| ==> entries[i].key in seen && seen[entries[i].key] == entries[i].until)
    && (forall i, j :: 0 <= i < j < |entries| ==> entries[i].key != entries[j].key)
  }

  predicate ByExpiry(entries: seq<SeenEntry>) {
    forall i, j :: 0 <= i < j < |entries| ==> entries[i].until <= entries[j].until
  }

  lemma {:induction false} InsertLists(seen: Seen, entries: seq<SeenEntry>, e: SeenEntry, at: nat)
    requires Lists(seen, entries) && e.key in seen && seen[e.key] == e.until && at <= |entries|
    requires forall i :: 0 <= i < |entries| ==> entries[i].key != e.key
    ensures Lists(seen, entries[..at] + [e] + entries[at..])
  {
  }

  lemma {:induction false} InsertSorted(entries: seq<SeenEntry>, e: SeenEntry, at: nat)
    requires ByExpiry(entries) && at <= |entries|
    requires forall i :: 0 <= i < at ==> entries[i].until <= e.until
    requires at < |entries| ==> e.until <= entries[at].until
    ensures ByExpiry(entries[..at] + [e] + entries[at..])
  {
  }

  lemma {:induction false} InsertMembers(entries: seq<SeenEntry>, e: SeenEntry, at: nat)
    requires at <= |entries|
    ensures forall x :: x in entries[..at] + [e] + entries[at..] <==> x in entries || x == e
  {
    assert entries == entries[..at] + entries[at..];
  }

  /** sort.Slice as insertion of one more entry. */
  method InsertByExpiry(ghost seen: Seen, entries: seq<SeenEntry>, e: SeenEntry) returns (r: seq<SeenEntry>)
    requires Lists(seen, entries) && ByExpiry(entries) && e.key in seen && seen[e.key] == e.until
    requires forall i :: 0 <= i < |entries| ==> entries[i].key != e.key
    ensures Lists(seen, r) && ByExpiry(r) && |r| == |entries| + 1
    ensures forall x :: x in r <==> x in entries || x == e
  {
    var at := 0;
    while at < |entries| && entries[at].until <= e.until
      invariant 0 <= at <= |entries|
      invariant forall i :: 0 <= i < at ==> entries[i].until <= e.until
    {
      at := at + 1;
    }
    hide Lists, ByExpiry;
    InsertLists(seen, entries, e, at);
    InsertSorted(entries, e, at);
    InsertMembers(entries, e, at);
    r := entries[..at] + [e] + entries[at..];
  }

  /** The table without the keys of the first n entries. */
  predicate Without(seen: Seen, entries: seq<SeenEntry>, n: nat, rest: Seen)
    requires n <= |entries|
  {
    && rest.Keys <= seen.Keys
    && (forall k :: k in rest ==> rest[k] == seen[k])
    && (forall i :: 0 <= i < |entries| ==> (entries[i].key in rest <==> n <= i))
  }

  lemma {:induction false} EarliestRemoved(seen: Seen, entries: seq<SeenEntry>, n: nat, rest: Seen)
    requires n <= |entries| && Lists(seen, entries) && ByExpiry(entries) && Without(seen, entries, n, rest)
    requires forall k :: k in seen ==> SeenEntry(k, seen[k]) in entries
    ensures forall k, k' :: k in seen && k !in rest && k' in rest ==> seen[k] <= rest[k']
  {
    forall k, k' | k in seen && k !in rest && k' in rest
      ensures seen[k] <= rest[k']
    {
      var i :| 0 <= i < |entries| && entries[i] == SeenEntry(k, seen[k]);
      var j :| 0 <= j < |entries| && entries[j] == SeenEntry(k', seen[k']);
    }
  }

  lemma {:induction false} RemoveOne(seen: Seen, entries: seq<SeenEntry>, i: nat, rest: Seen)
    requires i < |entries| && Lists(seen, entries) && Without(seen, entries, i, rest)
    ensures Without(seen, entries, i + 1, rest - {entries[i].key})
    ensures |rest - {entries[i].key}| == |rest| - 1
  {
    assert (rest - {entries[i].key}).Keys == rest.Keys - {entries[i].key};
  }

  class Throttle {
    var seen: Seen
    var held: nat

    constructor ()
      ensures seen == map[] && held == 0
    {
      seen, held := map[], 0;
    }

    method PruneLocked(now: int)
      modifies this`seen
      ensures seen == Prune(old(seen), now)
    {
      var keys := seen.Keys;
      while keys != {}
        invariant keys <= seen.Keys && seen.Keys <= old(seen).Keys
        invariant forall k :: k in seen ==> seen[k] == old(seen)[k] && (k in keys || now < seen[k])
        invariant forall k :: k in old(seen) && k !in seen ==> !(now < old(seen)[k])
        decreases keys
      {
        var k :| k in keys;
        if !(now < seen[k]) {
          seen := seen - {k};
        }
        keys := keys - {k};
      }
    }

    /** The entries in order of expiry. */
    method SortedEntries() returns (entries: seq<SeenEntry>)
      ensures Lists(seen, entries) && ByExpiry(entries) && |entries| == |seen|
      ensures forall k :: k in seen ==> SeenEntry(k, seen[k]) in entries
    {
      var keys := seen.Keys;
      entries := [];
      while keys != {}
        invariant keys <= seen.Keys && |entries| + |keys| == |seen.Keys|
        invariant Lists(seen, entries) && ByExpiry(entries)
        invariant forall e :: e in entries ==> e.key !in keys
        invariant forall k :: k in seen && k !in keys ==> SeenEntry(k, seen[k]) in entries
        decreases keys
      {
        var k :| k in keys;
        assert forall i :: 0 <= i < |entries| ==> entries[i] in entries;
        entries := InsertByExpiry(seen, entries, SeenEntry(k, seen[k]));
        keys := keys - {k};
      }
    }

    method TrimLocked(targetSize: nat)
      modifies this`seen
      ensures IsTrim(old(seen), targetSize, seen)
    {
      if |seen| <= targetSize {
        return;
      }
      var entries := SortedEntries();
      var removeCount := |seen| - targetSize;
      for i := 0 to removeCount
        invariant |seen| == |old(seen)| - i
        invariant Without(old(seen), entries, i, seen)
      {
        RemoveOne(old(seen), entries, i, seen);
        seen := seen - {entries[i].key};
      }
      EarliestRemoved(old(seen), entries, removeCount, seen);
    }

    method TryBeginDiscoveryConnect(key: string, now: int) returns (admitted: bool)
      modifies this
      ensures Tries(Table(old(seen), old(held)), key, now, admitted, Table(seen, held))
    {
      if |seen| > PRUNE_THRESHOLD {
        PruneLocked(now);
      }
      ghost var swept := seen;
      if key in seen && now < seen[key] {
        assert Stores(old(seen), key, now, seen, false);
        return false;
      }
      if |seen| >= HARD_LIMIT {
        PruneLocked(now);
        if |seen| >= HARD_LIMIT {
          TrimLocked(HARD_LIMIT - 1);
        }
      }
      ghost var room := seen;
      assert MakesRoom(swept, now, room);
      seen := seen[key := now + COOLDOWN];
      ghost var after := seen;
      assert Stores(old(seen), key, now, after, true);
      if held < CONCURRENCY {
        held := held + 1;
        return true;
      }
      seen := seen - {key};
      return false;
    }

    method EndDiscoveryConnect()
      modifies this`held
      ensures held == if old(held) > 0 then old(held) - 1 else 0
    {
      if held > 0 {
        held := held - 1;
      }
    }
  }
}
