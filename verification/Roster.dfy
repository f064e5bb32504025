/**
 internal/swarm/swarm.go, the ledger: who has ever been in the swarm, which is the quorum denominator.
 `Swarm` holds the source's three maps; memberlist's callbacks and the reaper are its methods. A run
 is any sequence of those calls, and `Ledger` is the value they leave behind.
 */
module Roster {
  import opened Base

  const REAP_DEAD_AFTER: int := HOUR

  datatype Ledger = Ledger(everSeen: set<Name>, expected: set<Name>, died: map<Name, Time>)

  datatype Event =
    | Joined(name: Name)
    | Left(name: Name)
    | Failed(name: Name, at: Time)
    | Farewell(name: Name)
    | Reap(alive: set<Name>, at: Time)

  function Seeded(id: Name, declared: seq<Name>): Ledger {
    var names := set n | n in declared && n != "";
    Ledger({id} + names, names, map[])
  }

  predicate ReapDue(l: Ledger, name: Name, alive: set<Name>, now: Time) {
    name in l.died && name !in l.expected && name !in alive && now - l.died[name] > REAP_DEAD_AFTER
  }

  predicate StampDropped(l: Ledger, name: Name, alive: set<Name>, now: Time) {
    name in l.died && (name in l.expected || name in alive || now - l.died[name] > REAP_DEAD_AFTER)
  }

  function After(l: Ledger, e: Event): Ledger {
    match e
    case Joined(n) => l.(everSeen := l.everSeen + {n}, died := l.died - {n})
    case Left(n) =>
      l.(everSeen := if n in l.expected then l.everSeen else l.everSeen - {n}, died := l.died - {n})
    case Failed(n, at) =>
      if n in l.expected || (n in l.died && l.died[n] != ZERO_TIME) then l else l.(died := l.died[n := at])
    case Farewell(n) => if n in l.expected then l else l.(everSeen := l.everSeen - {n})
    case Reap(alive, at) =>
      l.(everSeen := (set n | n in l.everSeen && !ReapDue(l, n, alive, at)),
         died := map n | n in l.died && !StampDropped(l, n, alive, at) :: l.died[n])
  }

  function Run(id: Name, declared: seq<Name>, events: seq<Event>): Ledger {
    if events == [] then Seeded(id, declared)
    else After(Run(id, declared, events[..|events| - 1]), events[|events| - 1])
  }

  class Swarm {
    var everSeen: set<Name>
    var expected: set<Name>
    var died: map<Name, Time>

    ghost function Contents(): Ledger
      reads this
    {
      Ledger(everSeen, expected, died)
    }

    constructor Join(id: Name, declared: seq<Name>)
      ensures Contents() == Seeded(id, declared)
    {
      var seen, names := {id}, {};
      for i := 0 to |declared|
        invariant names == set n | n in declared[..i] && n != ""
        invariant seen == {id} + names
      {
        assert declared[..i + 1] == declared[..i] + [declared[i]];
        if declared[i] != "" {
          seen := seen + {declared[i]};
          names := names + {declared[i]};
        }
      }
      assert declared[..|declared|] == declared;
      everSeen, expected, died := seen, names, map[];
    }

    method NotifyJoin(name: Name)
      modifies this
      ensures Contents() == After(old(Contents()), Joined(name))
      ensures everSeen == old(everSeen) + {name} && died == old(died) - {name} && expected == old(expected)
    {
      everSeen := everSeen + {name};
      died := died - {name};
    }

    /** `graceful` is memberlist's StateLeft. */
    method NotifyLeave(name: Name, graceful: bool, now: Time)
      modifies this
      ensures Contents() == After(old(Contents()), if graceful then Left(name) else Failed(name, now))
    {
      if graceful {
        if name !in expected {
          everSeen := everSeen - {name};
        }
        died := died - {name};
        return;
      }
      if name !in expected {
        if name !in died || died[name] == ZERO_TIME {
          died := died[name := now];
        }
      }
    }

    method Forget(name: Name)
      modifies this`everSeen
      ensures Contents() == After(old(Contents()), Farewell(name))
    {
      if name !in expected {
        everSeen := everSeen - {name};
      }
    }

    method Reap(now: Time, alive: set<Name>)
      modifies this
      ensures Contents() == After(old(Contents()), Event.Reap(alive, now))
    {
      ghost var before := Contents();
      var todo := died.Keys;
      while todo != {}
        invariant expected == before.expected && todo <= before.died.Keys
        invariant everSeen == set n | n in before.everSeen && (n in todo || !ReapDue(before, n, alive, now))
        invariant died == map n | n in before.died && (n in todo || !StampDropped(before, n, alive, now)) ::
            before.died[n]
        decreases todo
      {
        var name :| name in todo;
        var at := died[name];
        todo := todo - {name};
        if name in expected || name in alive {
          died := died - {name};
        } else if now - at > REAP_DEAD_AFTER {
          everSeen := everSeen - {name};
          died := died - {name};
        }
      }
    }

    method LastKnownSize() returns (n: nat)
      ensures n == |Contents().everSeen|
    {
      n := |everSeen|;
    }

    method Roster() returns (names: seq<Name>)
      ensures Ascending(names) && Elements(names) == Contents().everSeen
    {
      names := SortNames(everSeen);
    }
  }

  // ---- What every run keeps ----

  /** Declared members are counted from the first instant to the last, and the reaper never holds a stamp for them. */
  lemma {:induction false} DeclaredStayCounted(id: Name, declared: seq<Name>, events: seq<Event>)
    ensures
      var l := Run(id, declared, events);
      && l.expected == (set n | n in declared && n != "")
      && l.expected <= l.everSeen
      && l.expected !! l.died.Keys
  {
    if events != [] {
      DeclaredStayCounted(id, declared, events[..|events| - 1]);
    }
  }

  /** The failure at step `j` that started the reaper's clock on `n`, still running before step `i`. */
  ghost predicate DeadSince(events: seq<Event>, n: Name, at: Time, j: nat, i: nat) {
    && j < i <= |events|
    && events[j] == Failed(n, at)
    && (forall k :: j < k < i ==> events[k] != Joined(n) && events[k] != Left(n))
    && (forall k :: j < k < i && events[k].Reap? ==> n !in events[k].alive && events[k].at - at <= REAP_DEAD_AFTER)
  }

  lemma {:induction false} StampsHaveACause(id: Name, declared: seq<Name>, events: seq<Event>, n: Name)
    requires n in Run(id, declared, events).died
    ensures n !in declared || n == ""
    ensures exists j :: DeadSince(events, n, Run(id, declared, events).died[n], j, |events|)
  {
    DeclaredStayCounted(id, declared, events);
    if events != [] {
      var last := |events| - 1;
      var before := Run(id, declared, events[..last]);
      var e := events[last];
      DeclaredStayCounted(id, declared, events[..last]);
      var at := Run(id, declared, events).died[n];
      if n in before.died && before.died[n] == at && e != Joined(n) && e != Left(n) {
        StampsHaveACause(id, declared, events[..last], n);
        var j :| DeadSince(events[..last], n, at, j, last);
        assert DeadSince(events, n, at, j, |events|);
      } else {
        assert e == Failed(n, at);
        assert DeadSince(events, n, at, last, |events|);
      }
    }
  }

  /**
   A name leaves the ledger only by a graceful leave, by a farewell, or because it was never declared
   and stayed dead past the grace with no join in between.
   */
  lemma NamesLeaveForAReason(id: Name, declared: seq<Name>, events: seq<Event>, i: nat, n: Name)
    requires i < |events|
    requires n in Run(id, declared, events[..i]).everSeen && n !in Run(id, declared, events[..i + 1]).everSeen
    ensures n !in declared || n == ""
    ensures
      || events[i] == Left(n)
      || events[i] == Farewell(n)
      || (events[i].Reap? && n !in events[i].alive
          && exists j, at :: DeadSince(events, n, at, j, i) && events[i].at - at > REAP_DEAD_AFTER)
  {
    assert events[..i + 1][..i] == events[..i];
    var before := Run(id, declared, events[..i]);
    DeclaredStayCounted(id, declared, events[..i]);
    DeclaredStayCounted(id, declared, events[..i + 1]);
    if events[i].Reap? {
      assert ReapDue(before, n, events[i].alive, events[i].at);
      StampsHaveACause(id, declared, events[..i], n);
      var j :| DeadSince(events[..i], n, before.died[n], j, i);
      assert DeadSince(events, n, before.died[n], j, i);
    }
  }

  lemma {:induction false} StampHolds(id: Name, declared: seq<Name>, events: seq<Event>, n: Name, at: Time, j: nat)
    requires DeadSince(events, n, at, j, |events|)
    requires n !in declared && ZERO_TIME < at
    requires n !in Run(id, declared, events[..j]).died
    ensures n in Run(id, declared, events).died && Run(id, declared, events).died[n] == at
  {
    var last := |events| - 1;
    DeclaredStayCounted(id, declared, events[..last]);
    if j < last {
      assert events[..last][..j] == events[..j];
      assert DeadSince(events[..last], n, at, j, last);
      StampHolds(id, declared, events[..last], n, at, j);
    }
  }

  /** And conversely: an undeclared name that has stayed dead past the grace is gone after the next reap without it. */
  lemma ReapForgets(id: Name, declared: seq<Name>, events: seq<Event>, n: Name, at: Time, j: nat, alive: set<Name>,
                    now: Time)
    requires DeadSince(events, n, at, j, |events|)
    requires n !in declared && n !in alive && now - at > REAP_DEAD_AFTER
    requires ZERO_TIME < at
    requires n !in Run(id, declared, events[..j]).died
    ensures n !in After(Run(id, declared, events), Reap(alive, now)).everSeen
  {
    StampHolds(id, declared, events, n, at, j);
    DeclaredStayCounted(id, declared, events);
  }

  // ---- Who is counted, told from the events alone ----

  function At(e: Event): Time {
    match e
    case Failed(_, at) => at
    case Reap(_, at) => at
    case _ => ZERO_TIME
  }

  /** The event ends the reaper's watch over `n`, begun at the instant `at`. */
  predicate Stops(e: Event, n: Name, at: Time) {
    || e == Joined(n) || e == Left(n)
    || (e.Reap? && (n in e.alive || e.at - at > 3600 * SECOND))
    || (at == ZERO_TIME && e.Failed? && e.name == n)
  }

  /** The failure at step `j` begins the watch: none is on, or only one without an instant. */
  ghost predicate Starts(events: seq<Event>, n: Name, j: nat)
    decreases j, 1
  {
    && j < |events| && events[j].Failed? && events[j].name == n
    && forall i: nat :: i < j && Watching(events, n, i, j) ==> At(events[i]) == ZERO_TIME
  }

  /** Before step `j` the watch begun by the failure at step `i` is still on. */
  ghost predicate Watching(events: seq<Event>, n: Name, i: nat, j: nat)
    decreases j, 0
  {
    && i < j <= |events| && Starts(events, n, i)
    && forall k :: i < k < j ==> !Stops(events[k], n, At(events[i]))
  }

  /** Step `k` takes an undeclared name off the ledger: a graceful leave, a farewell, or an hour on watch. */
  ghost predicate Drops(events: seq<Event>, n: Name, k: nat) {
    && k < |events|
    && (|| events[k] == Left(n) || events[k] == Farewell(n)
        || (events[k].Reap? && n !in events[k].alive
            && exists i: nat :: i < k && Watching(events, n, i, k) && events[k].at - At(events[i]) > 3600 * SECOND))
  }

  /** Nothing from step `j` on drops the name. */
  ghost predicate Stays(events: seq<Event>, n: Name, j: nat) {
    forall k :: j <= k < |events| ==> !Drops(events, n, k)
  }

  /** Declared, or its own, or joined, and not dropped since. */
  ghost predicate Remembered(id: Name, declared: seq<Name>, events: seq<Event>, n: Name) {
    || (n in declared && n != "")
    || (n == id && Stays(events, n, 0))
    || exists j: nat :: j < |events| && events[j] == Joined(n) && Stays(events, n, j + 1)
  }

  /** Who was watched up to `m` is the same seen from later. */
  lemma {:induction false} WatchBefore(events: seq<Event>, m: nat, n: Name, i: nat, j: nat)
    requires m <= |events| && j <= m
    ensures Watching(events[..m], n, i, j) <==> Watching(events, n, i, j)
    decreases j, 0
  {
    if i < j {
      StartBefore(events, m, n, i);
      assert forall k :: i <= k < j ==> events[..m][k] == events[k];
    }
  }

  lemma {:induction false} StartBefore(events: seq<Event>, m: nat, n: Name, j: nat)
    requires j < m <= |events|
    ensures Starts(events[..m], n, j) <==> Starts(events, n, j)
    decreases j, 1
  {
    forall i: nat | i < j ensures Watching(events[..m], n, i, j) <==> Watching(events, n, i, j) {
      WatchBefore(events, m, n, i, j);
    }
  }

  lemma DropBefore(events: seq<Event>, m: nat, n: Name, k: nat)
    requires k < m <= |events|
    ensures Drops(events[..m], n, k) <==> Drops(events, n, k)
  {
    forall i: nat | i < k ensures Watching(events[..m], n, i, k) <==> Watching(events, n, i, k) {
      WatchBefore(events, m, n, i, k);
    }
  }

  /** A name has a stamp if and only if it is undeclared and on watch, and the stamp says since when. */
  ghost predicate Stamped(l: Ledger, declared: seq<Name>, events: seq<Event>, n: Name) {
    && (n in l.died ==> !(n in declared && n != "") && exists i: nat :: Watching(events, n, i, |events|))
    && (!(n in declared && n != "") ==> forall i: nat :: Watching(events, n, i, |events|) ==>
          n in l.died && l.died[n] == At(events[i]))
  }

  lemma OneMoreWatch(events: seq<Event>, n: Name, i: nat)
    requires events != []
    ensures
      var last := |events| - 1;
      Watching(events, n, i, |events|) <==>
        if i == last then Starts(events, n, last)
        else Watching(events[..last], n, i, last) && !Stops(events[last], n, At(events[i]))
  {
    var last := |events| - 1;
    if i < last {
      WatchBefore(events, last, n, i, last);
    }
  }

  lemma WatchIsStamped(id: Name, declared: seq<Name>, events: seq<Event>, n: Name, i: nat)
    requires events != [] && n !in Run(id, declared, events[..|events| - 1]).expected
    requires Stamped(Run(id, declared, events[..|events| - 1]), declared, events[..|events| - 1], n)
    requires !(n in declared && n != "") && Watching(events, n, i, |events|)
    ensures n in Run(id, declared, events).died && Run(id, declared, events).died[n] == At(events[i])
  {
    var last := |events| - 1;
    var rest, before := events[..last], Run(id, declared, events[..last]);
    OneMoreWatch(events, n, i);
    if i == last && n in before.died {
      var j: nat :| Watching(rest, n, j, last);
      WatchBefore(events, last, n, j, last);
      assert before.died[n] == At(events[j]) == ZERO_TIME;
    }
  }

  lemma StampIsWatched(id: Name, declared: seq<Name>, events: seq<Event>, n: Name)
    requires events != [] && n !in Run(id, declared, events[..|events| - 1]).expected
    requires Stamped(Run(id, declared, events[..|events| - 1]), declared, events[..|events| - 1], n)
    requires !(n in declared && n != "") && n in Run(id, declared, events).died
    ensures exists i: nat :: Watching(events, n, i, |events|)
  {
    var last := |events| - 1;
    var rest, before, e := events[..last], Run(id, declared, events[..last]), events[last];
    if n in before.died && !Stops(e, n, before.died[n]) {
      var i: nat :| Watching(rest, n, i, last);
      OneMoreWatch(events, n, i);
    } else {
      assert e.Failed? && e.name == n;
      forall i: nat | i < last && Watching(events, n, i, last) ensures At(events[i]) == ZERO_TIME {
        WatchBefore(events, last, n, i, last);
      }
      OneMoreWatch(events, n, last);
    }
  }

  lemma {:induction false} StampsAreWatches(id: Name, declared: seq<Name>, events: seq<Event>, n: Name)
    ensures Stamped(Run(id, declared, events), declared, events, n)
  {
    DeclaredStayCounted(id, declared, events);
    if events != [] && !(n in declared && n != "") {
      var rest := events[..|events| - 1];
      StampsAreWatches(id, declared, rest, n);
      DeclaredStayCounted(id, declared, rest);
      forall i: nat | Watching(events, n, i, |events|)
        ensures n in Run(id, declared, events).died && Run(id, declared, events).died[n] == At(events[i])
      {
        WatchIsStamped(id, declared, events, n, i);
      }
      if n in Run(id, declared, events).died {
        StampIsWatched(id, declared, events, n);
      }
    }
  }

  /** One step takes a counted, undeclared name off the ledger exactly if it drops it. */
  lemma DroppedIff(id: Name, declared: seq<Name>, events: seq<Event>, n: Name)
    requires events != [] && !(n in declared && n != "")
    requires n in Run(id, declared, events[..|events| - 1]).everSeen
    ensures n in Run(id, declared, events).everSeen <==> !Drops(events, n, |events| - 1)
  {
    var last := |events| - 1;
    var rest, e, before := events[..last], events[last], Run(id, declared, events[..last]);
    DeclaredStayCounted(id, declared, rest);
    StampsAreWatches(id, declared, rest, n);
    forall i: nat | i < last ensures Watching(rest, n, i, last) <==> Watching(events, n, i, last) {
      WatchBefore(events, last, n, i, last);
    }
    if e.Reap? && ReapDue(before, n, e.alive, e.at) {
      var i: nat :| Watching(rest, n, i, last);
      assert Watching(events, n, i, last);
    }
  }

  lemma StaysOn(events: seq<Event>, n: Name, j: nat)
    requires events != [] && j < |events|
    ensures Stays(events, n, j) <==> Stays(events[..|events| - 1], n, j) && !Drops(events, n, |events| - 1)
  {
    var last := |events| - 1;
    forall k: nat | k < last ensures Drops(events[..last], n, k) <==> Drops(events, n, k) {
      DropBefore(events, last, n, k);
    }
  }

  lemma RememberedStep(id: Name, declared: seq<Name>, events: seq<Event>, n: Name)
    requires events != [] && !(n in declared && n != "")
    ensures Remembered(id, declared, events, n)
       <==> events[|events| - 1] == Joined(n)
            || (Remembered(id, declared, events[..|events| - 1], n) && !Drops(events, n, |events| - 1))
  {
    var last := |events| - 1;
    var rest := events[..last];
    StaysOn(events, n, 0);
    if events[last] == Joined(n) {
      assert Stays(events, n, last + 1);
    } else if Remembered(id, declared, rest, n) && !Drops(events, n, last) && !(n == id && Stays(rest, n, 0)) {
      var j: nat :| j < last && rest[j] == Joined(n) && Stays(rest, n, j + 1);
      StaysOn(events, n, j + 1);
      assert events[j] == Joined(n) && Stays(events, n, j + 1);
    } else if Remembered(id, declared, events, n) && !(n == id && Stays(events, n, 0)) {
      var j: nat :| j < |events| && events[j] == Joined(n) && Stays(events, n, j + 1);
      StaysOn(events, n, j + 1);
      assert rest[j] == Joined(n) && Stays(rest, n, j + 1);
    }
  }

  /**
   Who is counted, in every run: a name is on the ledger if and only if it is declared, or it is this lantern's own
   or has joined, and since then it has neither left gracefully nor been said farewell to nor been reaped after more
   than an hour dead.
   */
  lemma {:induction false} CountedIff(id: Name, declared: seq<Name>, events: seq<Event>, n: Name)
    ensures n in Run(id, declared, events).everSeen <==> Remembered(id, declared, events, n)
  {
    DeclaredStayCounted(id, declared, events);
    if events == [] {
      assert n == id ==> Stays(events, n, 0);
    } else if !(n in declared && n != "") {
      var rest, e := events[..|events| - 1], events[|events| - 1];
      CountedIff(id, declared, rest, n);
      RememberedStep(id, declared, events, n);
      DeclaredStayCounted(id, declared, rest);
      if n in Run(id, declared, rest).everSeen {
        DroppedIff(id, declared, events, n);
      }
    }
  }

  /** The quorum denominator is the number of names remembered in that sense. */
  lemma SizeCountsTheRemembered(id: Name, declared: seq<Name>, events: seq<Event>, names: set<Name>)
    requires forall n :: n in names <==> Remembered(id, declared, events, n)
    ensures |Run(id, declared, events).everSeen| == |names|
  {
    forall n ensures n in Run(id, declared, events).everSeen <==> n in names {
      CountedIff(id, declared, events, n);
    }
    assert Run(id, declared, events).everSeen == names;
  }
}
