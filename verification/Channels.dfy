/**
  Channel subscriptions (node/node_channel.go, node/node.go, node/config.go): the list of channel names and
  the set of name hashes that answers membership in constant time. `hash` stands for SHA-256.
*/
module Channels {
  import opened Base

  datatype Subs = Subs(channels: seq<string>, index: set<Bytes>)

  datatype Op = Join(name: string) | Leave(name: string)

  predicate NoDuplicates(names: seq<string>) {
    forall i, j :: 0 <= i < j < |names| ==> names[i] != names[j]
  }

  /** WithChannelID: append unless present. */
  function AddName(names: seq<string>, name: string): seq<string> {
    if name in names then names else names + [name]
  }

  function AddNames(names: seq<string>): seq<string> {
    if names == [] then [] else AddName(AddNames(names[..|names| - 1]), names[|names| - 1])
  }

  function Hashes(hash: string -> Bytes, names: seq<string>): set<Bytes> {
    set c | c in names :: hash(c)
  }

  /** NewNode with the given WithChannelID options. */
  function Construct(hash: string -> Bytes, names: seq<string>): Subs {
    Subs(AddNames(names), Hashes(hash, AddNames(names)))
  }

  function IndexOf(names: seq<string>, name: string): (i: nat)
    ensures i <= |names| && name !in names[..i] && (i < |names| ==> names[i] == name)
  {
    if names == [] || names[0] == name then 0 else 1 + IndexOf(names[1..], name)
  }

  function Apply(hash: string -> Bytes, s: Subs, op: Op): Subs {
    match op
    case Join(name) =>
      if name in s.channels then s else Subs(s.channels + [name], s.index + {hash(name)})
    case Leave(name) =>
      var i := IndexOf(s.channels, name);
      if i == |s.channels| then s else Subs(s.channels[..i] + s.channels[i + 1..], s.index - {hash(name)})
  }

  function Run(hash: string -> Bytes, s: Subs, ops: seq<Op>): Subs {
    if ops == [] then s else Apply(hash, Run(hash, s, ops[..|ops| - 1]), ops[|ops| - 1])
  }

  /** The specification: hash every subscribed name and compare. */
  predicate LinearScan(hash: string -> Bytes, s: Subs, h: Bytes) {
    exists i :: 0 <= i < |s.channels| && hash(s.channels[i]) == h
  }

  ghost predicate Agrees(hash: string -> Bytes, s: Subs) {
    forall h: Bytes :: h in s.index <==> LinearScan(hash, s, h)
  }

  ghost predicate InjectiveOn(hash: string -> Bytes, used: iset<string>) {
    forall x, y :: x in used && y in used && hash(x) == hash(y) ==> x == y
  }

  predicate Uses(used: iset<string>, names: seq<string>, ops: seq<Op>) {
    && (forall i :: 0 <= i < |names| ==> names[i] in used)
    && (forall i :: 0 <= i < |ops| ==> ops[i].name in used)
  }

  lemma {:induction false} AddNamesOk(names: seq<string>)
    ensures NoDuplicates(AddNames(names))
    ensures forall c :: c in AddNames(names) <==> c in names
  {
    if names != [] {
      AddNamesOk(names[..|names| - 1]);
    }
  }

  predicate Within(used: iset<string>, names: seq<string>) {
    forall c :: c in names ==> c in used
  }

  lemma {:induction false} ApplyAgrees(hash: string -> Bytes, s: Subs, op: Op, used: iset<string>)
    requires NoDuplicates(s.channels)
    ensures NoDuplicates(Apply(hash, s, op).channels)
    ensures InjectiveOn(hash, used) && Within(used, s.channels) && op.name in used && Agrees(hash, s) ==>
              Within(used, Apply(hash, s, op).channels) && Agrees(hash, Apply(hash, s, op))
  {
    var s' := Apply(hash, s, op);
    if s' != s && InjectiveOn(hash, used) && Within(used, s.channels) && op.name in used && Agrees(hash, s) {
      forall h: Bytes
        ensures h in s'.index <==> LinearScan(hash, s', h)
      {
        assert h in s.index <==> LinearScan(hash, s, h);
        if op.Join? {
          JoinScan(hash, s, op.name, h);
        } else {
          LeaveScan(hash, s, op.name, h, used);
        }
      }
    }
  }

  lemma {:induction false} JoinScan(hash: string -> Bytes, s: Subs, name: string, h: Bytes)
    ensures LinearScan(hash, s.(channels := s.channels + [name]), h) <==> LinearScan(hash, s, h) || hash(name) == h
  {
    var more := s.channels + [name];
    assert more[|s.channels|] == name;
    assert forall i :: 0 <= i < |s.channels| ==> more[i] == s.channels[i];
  }

  lemma {:induction false} RemovedScan(hash: string -> Bytes, names: seq<string>, i: nat, h: Bytes)
    requires i < |names|
    ensures var less := names[..i] + names[i + 1..];
            (exists j :: 0 <= j < |less| && hash(less[j]) == h)
            <==> (exists j :: 0 <= j < |names| && j != i && hash(names[j]) == h)
  {
    var less := names[..i] + names[i + 1..];
    if j :| 0 <= j < |less| && hash(less[j]) == h {
      var k := if j < i then j else j + 1;
      assert names[k] == less[j];
    }
    if j :| 0 <= j < |names| && j != i && hash(names[j]) == h {
      var k := if j < i then j else j - 1;
      assert less[k] == names[j];
    }
  }

  lemma {:induction false} LeaveScan(hash: string -> Bytes, s: Subs, name: string, h: Bytes, used: iset<string>)
    requires NoDuplicates(s.channels) && name in s.channels
    requires InjectiveOn(hash, used) && Within(used, s.channels)
    ensures var i := IndexOf(s.channels, name);
            && i < |s.channels|
            && (LinearScan(hash, s.(channels := s.channels[..i] + s.channels[i + 1..]), h)
                <==> LinearScan(hash, s, h) && hash(name) != h)
  {
    var i := IndexOf(s.channels, name);
    assert i < |s.channels|;
    RemovedScan(hash, s.channels, i, h);
    assert forall j :: 0 <= j < |s.channels| ==> s.channels[j] in s.channels;
  }

  /**
    The constant-time index agrees with the linear scan after any construction, joins and leaves, as long as
    the hash tells the names in use apart; the list never holds a name twice in any case.
  */
  lemma {:induction false} IndexRefinesScan(hash: string -> Bytes, names: seq<string>, ops: seq<Op>, used: iset<string>)
    requires Uses(used, names, ops)
    ensures NoDuplicates(Run(hash, Construct(hash, names), ops).channels)
    ensures InjectiveOn(hash, used) ==>
              var s := Run(hash, Construct(hash, names), ops);
              Within(used, s.channels) && Agrees(hash, s)
  {
    if ops == [] {
      AddNamesOk(names);
      var s := Construct(hash, names);
      assert forall h :: h in s.index ==> exists c :: c in s.channels && hash(c) == h;
      assert forall i :: 0 <= i < |s.channels| ==> s.channels[i] in s.channels;
    } else {
      IndexRefinesScan(hash, names, ops[..|ops| - 1], used);
      ApplyAgrees(hash, Run(hash, Construct(hash, names), ops[..|ops| - 1]), ops[|ops| - 1], used);
    }
  }

  /** The latest operation on a name decides, and without one the configuration. */
  predicate Subscribed(names: seq<string>, ops: seq<Op>, name: string) {
    if ops == [] then name in names
    else if ops[|ops| - 1].name == name then ops[|ops| - 1].Join?
    else Subscribed(names, ops[..|ops| - 1], name)
  }

  lemma {:induction false} ApplyMembers(hash: string -> Bytes, s: Subs, op: Op, name: string)
    requires NoDuplicates(s.channels)
    ensures name in Apply(hash, s, op).channels <==>
            if name == op.name then op.Join? else name in s.channels
  {
    if op.Leave? {
      var i := IndexOf(s.channels, op.name);
      if i < |s.channels| {
        assert s.channels == s.channels[..i] + [op.name] + s.channels[i + 1..];
        assert forall j :: i < j < |s.channels| ==> s.channels[j] != op.name;
      } else {
        assert s.channels[..i] == s.channels;
      }
    }
  }

  lemma {:induction false} NeverTwice(hash: string -> Bytes, names: seq<string>, ops: seq<Op>)
    ensures NoDuplicates(Run(hash, Construct(hash, names), ops).channels)
  {
    if ops == [] {
      AddNamesOk(names);
    } else {
      NeverTwice(hash, names, ops[..|ops| - 1]);
      ApplyAgrees(hash, Run(hash, Construct(hash, names), ops[..|ops| - 1]), ops[|ops| - 1], iset{});
    }
  }

  /** After any construction, joins and leaves the list holds exactly the names that are subscribed. */
  lemma {:induction false} ListHoldsSubscribed(hash: string -> Bytes, names: seq<string>, ops: seq<Op>, name: string)
    ensures name in Run(hash, Construct(hash, names), ops).channels <==> Subscribed(names, ops, name)
  {
    if ops == [] {
      AddNamesOk(names);
    } else {
      var init := ops[..|ops| - 1];
      ListHoldsSubscribed(hash, names, init, name);
      NeverTwice(hash, names, init);
      ApplyMembers(hash, Run(hash, Construct(hash, names), init), ops[|ops| - 1], name);
    }
  }

  /**
    What a packet's channel hash is checked against: under a hash that tells the names in use apart, the index
    holds the hash of a name exactly when the name is subscribed.
  */
  lemma {:induction false} IndexMeansSubscribed(hash: string -> Bytes, names: seq<string>, ops: seq<Op>,
                                                used: iset<string>, name: string)
    requires Uses(used, names, ops) && InjectiveOn(hash, used) && name in used
    ensures hash(name) in Run(hash, Construct(hash, names), ops).index <==> Subscribed(names, ops, name)
  {
    var s := Run(hash, Construct(hash, names), ops);
    IndexRefinesScan(hash, names, ops, used);
    ListHoldsSubscribed(hash, names, ops, name);
    assert hash(name) in s.index <==> LinearScan(hash, s, hash(name));
    assert forall i :: 0 <= i < |s.channels| ==> s.channels[i] in s.channels;
  }

  /** Leaving one of two names with the same hash drops the other from the index. */
  lemma {:induction false} CollisionBreaksIndex(hash: string -> Bytes, x: string, y: string)
    requires x != y && hash(x) == hash(y)
    ensures !Agrees(hash, Run(hash, Construct(hash, []), [Join(x), Join(y), Leave(x)]))
  {
    var s0 := Construct(hash, []);
    var s1 := Apply(hash, s0, Join(x));
    var s2 := Apply(hash, s1, Join(y));
    var s3 := Apply(hash, s2, Leave(x));
    var ops := [Join(x), Join(y), Leave(x)];
    assert ops[..2][..1][..0] == [] && ops[..2][..1] == [Join(x)] && ops[..2] == [Join(x), Join(y)];
    assert Run(hash, s0, [Join(x)]) == s1;
    assert Run(hash, s0, ops[..2]) == s2;
    assert s2.channels == [x, y];
    assert s3.channels == [y] && hash(y) !in s3.index;
    assert LinearScan(hash, s3, hash(s3.channels[0]));
  }

  /** Over any set of names, all runs keep index and scan in agreement exactly when the hash is injective on it. */
  lemma {:induction false} AgreementIffInjective(hash: string -> Bytes, used: iset<string>)
    ensures (forall names: seq<string>, ops: seq<Op> ::
               Uses(used, names, ops) ==> Agrees(hash, Run(hash, Construct(hash, names), ops)))
            <==> InjectiveOn(hash, used)
  {
    if InjectiveOn(hash, used) {
      forall names: seq<string>, ops: seq<Op> | Uses(used, names, ops)
        ensures Agrees(hash, Run(hash, Construct(hash, names), ops))
      {
        IndexRefinesScan(hash, names, ops, used);
      }
    } else {
      var x, y :| x in used && y in used && hash(x) == hash(y) && x != y;
      CollisionBreaksIndex(hash, x, y);
      assert Uses(used, [], [Join(x), Join(y), Leave(x)]);
    }
  }
}
