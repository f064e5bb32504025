/**
 The quorum rule and the roster ledger together: the two sides of a split swarm never both decide on an alarm.
 */
module Partition {
  import opened Base
  import opened Quorum
  import R = Roster

  /** What one lantern decides about `s` from the ledger its membership history left and its store. */
  ghost function Decided(id: Name, declared: seq<Name>, events: seq<R.Event>, store: Store, s: Subject, maxAge: int,
                         now: Time): Decision {
    Verdict(s, BallotOf(store, s, maxAge, now), |R.Run(id, declared, events).everSeen|)
  }

  predicate Alarm(d: Decision) {
    !d.authority && d.state != Up
  }

  lemma AlarmNeedsMajority(id: Name, declared: seq<Name>, events: seq<R.Event>, store: Store, s: Subject, maxAge: int,
                           now: Time)
    requires Alarm(Decided(id, declared, events, store, s, maxAge, now))
    ensures 2 * |BallotOf(store, s, maxAge, now).Keys| > |R.Run(id, declared, events).everSeen|
    ensures 2 * |BallotOf(store, s, maxAge, now).Keys| > |set n | n in declared && n != ""|
  {
    var b := BallotOf(store, s, maxAge, now);
    CountsOrdered(b);
    assert |b| == |b.Keys|;
    R.DeclaredStayCounted(id, declared, events);
    SubsetSize(R.Run(id, declared, events).expected, R.Run(id, declared, events).everSeen);
  }

  /** A side whose live voters are at most half of what it remembers calls nothing but Up. */
  lemma MinorityStaysQuiet(id: Name, declared: seq<Name>, events: seq<R.Event>, store: Store, s: Subject, maxAge: int,
                           now: Time)
    requires 2 * |BallotOf(store, s, maxAge, now).Keys| <= |R.Run(id, declared, events).everSeen|
    requires s.target !in BallotOf(store, s, maxAge, now)
    ensures Decided(id, declared, events, store, s, maxAge, now).state == Up
  {
    if Alarm(Decided(id, declared, events, store, s, maxAge, now)) {
      AlarmNeedsMajority(id, declared, events, store, s, maxAge, now);
    }
  }

  /**
   Two lanterns that were given the same declared members and whose live voters on a subject are
   disjoint declared lanterns never both alarm, whatever joins, leaves, failures, farewells and reaps
   either of them has been through.
   */
  lemma PartitionSafety(
    declared: seq<Name>, s: Subject,
    id1: Name, events1: seq<R.Event>, store1: Store, maxAge1: int, now1: Time,
    id2: Name, events2: seq<R.Event>, store2: Store, maxAge2: int, now2: Time)
    requires BallotOf(store1, s, maxAge1, now1).Keys !! BallotOf(store2, s, maxAge2, now2).Keys
    requires BallotOf(store1, s, maxAge1, now1).Keys + BallotOf(store2, s, maxAge2, now2).Keys
             <= set n | n in declared && n != ""
    ensures !Alarm(Decided(id1, declared, events1, store1, s, maxAge1, now1))
         || !Alarm(Decided(id2, declared, events2, store2, s, maxAge2, now2))
  {
    var v1, v2 := BallotOf(store1, s, maxAge1, now1).Keys, BallotOf(store2, s, maxAge2, now2).Keys;
    assert |v1 + v2| == |v1| + |v2|;
    SubsetSize(v1 + v2, set n | n in declared && n != "");
    if Alarm(Decided(id1, declared, events1, store1, s, maxAge1, now1))
       && Alarm(Decided(id2, declared, events2, store2, s, maxAge2, now2)) {
      AlarmNeedsMajority(id1, declared, events1, store1, s, maxAge1, now1);
      AlarmNeedsMajority(id2, declared, events2, store2, s, maxAge2, now2);
    }
  }

  /** The peer joined, failed at `1` and was reaped at `reaped`. */
  function Split(peer: Name, reaped: Time): seq<R.Event> {
    [R.Joined(peer), R.Failed(peer, 1), R.Reap({}, reaped)]
  }

  lemma SplitForgets(id: Name, peer: Name, reaped: Time)
    requires id != peer && reaped > HOUR + 1
    ensures R.Run(id, [], Split(peer, reaped)).everSeen == {id}
  {
    var e1, e2, e3 := [R.Joined(peer)], [R.Joined(peer), R.Failed(peer, 1)], Split(peer, reaped);
    assert e1[..0] == [] && e2[..1] == e1 && e3[..2] == e2;
    var l1 := R.After(R.Seeded(id, []), R.Joined(peer));
    assert R.Run(id, [], e1) == l1 && l1 == R.Ledger({id, peer}, {}, map[]);
    var l2 := R.After(l1, R.Failed(peer, 1));
    assert R.Run(id, [], e2) == l2 && l2 == R.Ledger({id, peer}, {}, map[peer := 1]);
    assert R.Run(id, [], e3) == R.After(l2, R.Reap({}, reaped));
  }

  /** The lantern's own Down, seen at `at`, and nothing else. */
  function LoneStore(n: Name, s: Subject, at: Time): Store {
    map[Key(n, s.check, s.target) := Observation(n, s.target, s.check, Down, "", at, 0)]
  }

  lemma LoneWord(n: Name, s: Subject, maxAge: int, at: Time)
    requires n != s.target && maxAge > 0
    ensures BallotOf(LoneStore(n, s, at), s, maxAge, at).Keys == {n}
    ensures Verdict(s, BallotOf(LoneStore(n, s, at), s, maxAge, at), 1).state == Down
  {
    var b := BallotOf(LoneStore(n, s, at), s, maxAge, at);
    assert Key(n, s.check, s.target) in LoneStore(n, s, at);
    assert b.Keys == {n};
    assert Downs(b) == {n};
  }

  /**
   The declaration is what carries the theorem: undeclared, two lanterns split for longer than the reaper's grace
   both alarm on what each has seen down since the reap.
   */
  lemma UndeclaredSplitPagesTwice(n1: Name, n2: Name, s: Subject, maxAge: int, reaped: Time, at: Time)
    requires n1 != n2 && s.target != n1 && s.target != n2
    requires maxAge > 0 && HOUR + 1 < reaped < at
    ensures BallotOf(LoneStore(n1, s, at), s, maxAge, at).Keys !! BallotOf(LoneStore(n2, s, at), s, maxAge, at).Keys
    ensures Alarm(Decided(n1, [], Split(n2, reaped), LoneStore(n1, s, at), s, maxAge, at))
    ensures Alarm(Decided(n2, [], Split(n1, reaped), LoneStore(n2, s, at), s, maxAge, at))
  {
    SplitForgets(n1, n2, reaped);
    SplitForgets(n2, n1, reaped);
    LoneWord(n1, s, maxAge, at);
    LoneWord(n2, s, maxAge, at);
  }
}
