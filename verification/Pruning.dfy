/**
 internal/lantern/lantern.go, `prune` over whole runs: when is a lantern that prunes its store ever told
 apart from one that keeps everything?
 */
module Pruning {
  import opened Base
  import opened Quorum
  import opened Memory
  import opened Merge

  /** The same event for a lantern that never removes a stale word from its store. */
  function Hoarded(cfg: Config, m: Memory, e: Event): Memory {
    match e
    case Flash(own, at) => Flashed(cfg, m, own, at).(store := Written(m.store, own))
    case _ => After(cfg, m, e)
  }

  function HoardRun(cfg: Config, m: Memory, events: seq<Event>): Memory {
    if events == [] then m else Hoarded(cfg, HoardRun(cfg, m, events[..|events| - 1]), events[|events| - 1])
  }

  // ---- What the words have to respect ----

  /** The older word has expired by the time the newer one is pruned. */
  predicate Outlived(older: Observation, newer: Observation, maxAge: int) {
    older.seen + Cutoff(older, maxAge) <= newer.seen + Horizon(newer, maxAge)
  }

  /** Of any two words under one key, the older does not outlive the keeping of the newer. */
  ghost predicate Orderly(pool: set<Observation>, maxAge: int) {
    forall o, w :: o in pool && w in pool && KeyOf(o) == KeyOf(w) && o.seen <= w.seen ==> Outlived(o, w, maxAge)
  }

  /** In particular one TTL for every key is enough. */
  lemma OneTtlIsOrderly(pool: set<Observation>, maxAge: int)
    requires maxAge > 0
    requires forall o, w :: o in pool && w in pool && KeyOf(o) == KeyOf(w) ==> o.ttl == w.ttl
    ensures Orderly(pool, maxAge)
  {
  }

  /** The words an event brings along. */
  predicate Brings(cfg: Config, pool: set<Observation>, e: Event) {
    match e
    case Hear(o) => o in pool
    case Flash(own, _) => forall o :: o in own ==> o in pool
    case Ping(n, at) => ReceiptFor(cfg, n, at) in pool
    case _ => true
  }

  // ---- The two lanterns side by side ----

  /** Both hold the same under `k`. */
  predicate Same(store: Store, hoard: Store, k: Key) {
    (k in store <==> k in hoard) && (k in store ==> store[k] == hoard[k])
  }

  /** What either holds under `k` is no newer than some word whose time to be kept has passed. */
  ghost predicate Past(store: Store, hoard: Store, pool: set<Observation>, k: Key, maxAge: int, clock: Time) {
    exists w :: w in pool && KeyOf(w) == k && w.seen + Horizon(w, maxAge) < clock
                && (k in store ==> store[k].seen <= w.seen) && (k in hoard ==> hoard[k].seen <= w.seen)
  }

  ghost predicate SideBySide(cfg: Config, m: Memory, h: Memory, pool: set<Observation>, clock: Time) {
    && m.(store := h.store) == h
    && WellKeyed(m.store) && WellKeyed(h.store) && m.store.Values <= pool && h.store.Values <= pool
    && forall k :: Same(m.store, h.store, k) || Past(m.store, h.store, pool, k, cfg.maxAge, clock)
  }

  lemma PastStays(store: Store, hoard: Store, pool: set<Observation>, k: Key, maxAge: int, clock: Time,
                  store': Store, hoard': Store, later: Time)
    requires Past(store, hoard, pool, k, maxAge, clock) && clock <= later
    requires k in store' ==> k in store && store'[k] == store[k]
    requires k in hoard' ==> k in hoard && hoard'[k] == hoard[k]
    ensures Past(store', hoard', pool, k, maxAge, later)
  {
    var w :| w in pool && KeyOf(w) == k && w.seen + Horizon(w, maxAge) < clock
             && (k in store ==> store[k].seen <= w.seen) && (k in hoard ==> hoard[k].seen <= w.seen);
    assert w.seen + Horizon(w, maxAge) < later;
  }

  /** A word both take: where they differed, they still hold nothing live, or they now hold the same. */
  lemma NewerSideBySide(store: Store, hoard: Store, pool: set<Observation>, o: Observation, k: Key, maxAge: int,
                        clock: Time)
    requires Same(store, hoard, k) || Past(store, hoard, pool, k, maxAge, clock)
    ensures Same(Newer(store, o), Newer(hoard, o), k) || Past(Newer(store, o), Newer(hoard, o), pool, k, maxAge, clock)
  {
    if KeyOf(o) != k {
      if Past(store, hoard, pool, k, maxAge, clock) {
        PastStays(store, hoard, pool, k, maxAge, clock, Newer(store, o), Newer(hoard, o), clock);
      }
    } else if !Same(store, hoard, k) {
      var w :| w in pool && KeyOf(w) == k && w.seen + Horizon(w, maxAge) < clock
               && (k in store ==> store[k].seen <= w.seen) && (k in hoard ==> hoard[k].seen <= w.seen);
      if o.seen <= w.seen {
        assert Past(Newer(store, o), Newer(hoard, o), pool, k, maxAge, clock);
      }
    }
  }

  /** What hearing a word does outside the store does not depend on the store. */
  lemma SameOutside(id: Name, m: Memory, o: Observation, store: Store)
    ensures
      var m', h' := Heard(id, m, o), Heard(id, m.(store := store), o);
      m'.departed == h'.departed && m'.forgotten == h'.forgotten && m'.lastPulse == h'.lastPulse
  {
    HeardDeparted(id, m, o);
    HeardDeparted(id, m.(store := store), o);
    HeardForgotten(id, m, o);
    HeardForgotten(id, m.(store := store), o);
  }

  lemma NewerKeeps(store: Store, o: Observation, pool: set<Observation>)
    requires WellKeyed(store) && store.Values <= pool && o in pool
    ensures WellKeyed(Newer(store, o)) && Newer(store, o).Values <= pool
  {
  }

  lemma HearSideBySide(cfg: Config, m: Memory, h: Memory, pool: set<Observation>, clock: Time, o: Observation)
    requires SideBySide(cfg, m, h, pool, clock) && o in pool
    ensures SideBySide(cfg, Heard(cfg.id, m, o), Heard(cfg.id, h, o), pool, clock)
  {
    SameOutside(cfg.id, m, o, h.store);
    HeardStore(cfg.id, m, o);
    HeardStore(cfg.id, h, o);
    NewerKeeps(m.store, o, pool);
    NewerKeeps(h.store, o, pool);
    forall k ensures Same(Newer(m.store, o), Newer(h.store, o), k)
                     || Past(Newer(m.store, o), Newer(h.store, o), pool, k, cfg.maxAge, clock)
    {
      NewerSideBySide(m.store, h.store, pool, o, k, cfg.maxAge, clock);
    }
  }

  lemma PartSideBySide(cfg: Config, m: Memory, h: Memory, pool: set<Observation>, clock: Time, name: Name, at: Time)
    requires SideBySide(cfg, m, h, pool, clock) && clock <= at
    ensures SideBySide(cfg, Parted(m, name, at), Parted(h, name, at), pool, at)
  {
    var s, t := Parted(m, name, at).store, Parted(h, name, at).store;
    forall k ensures Same(s, t, k) || Past(s, t, pool, k, cfg.maxAge, at) {
      if !Same(m.store, h.store, k) {
        PastStays(m.store, h.store, pool, k, cfg.maxAge, clock, s, t, at);
      }
    }
  }

  lemma RetireSideBySide(cfg: Config, m: Memory, h: Memory, pool: set<Observation>, clock: Time, subject: Subject,
                         at: Time)
    requires SideBySide(cfg, m, h, pool, clock) && clock <= at
    ensures SideBySide(cfg, Retired(m, subject, at), Retired(h, subject, at), pool, at)
  {
    var s, t := Retired(m, subject, at).store, Retired(h, subject, at).store;
    forall k ensures Same(s, t, k) || Past(s, t, pool, k, cfg.maxAge, at) {
      if !Same(m.store, h.store, k) {
        PastStays(m.store, h.store, pool, k, cfg.maxAge, clock, s, t, at);
      }
    }
  }

  lemma {:induction false} WrittenSame(store: Store, hoard: Store, own: seq<Observation>, k: Key)
    ensures
      var s, h := Written(store, own), Written(hoard, own);
      if exists o :: o in own && KeyOf(o) == k then Same(s, h, k)
      else
        && (k in s <==> k in store) && (k in s ==> s[k] == store[k])
        && (k in h <==> k in hoard) && (k in h ==> h[k] == hoard[k])
  {
    if own != [] {
      var rest, last := own[..|own| - 1], own[|own| - 1];
      assert own == rest + [last];
      WrittenSame(store, hoard, rest, k);
    }
  }

  lemma WrittenSideBySide(cfg: Config, m: Memory, h: Memory, pool: set<Observation>, clock: Time, own: seq<Observation>)
    requires SideBySide(cfg, m, h, pool, clock) && forall o :: o in own ==> o in pool
    ensures SideBySide(cfg, m.(store := Written(m.store, own)), h.(store := Written(h.store, own)), pool, clock)
  {
    var s, t := Written(m.store, own), Written(h.store, own);
    WrittenHas(m.store, own);
    WrittenHas(h.store, own);
    forall k ensures Same(s, t, k) || Past(s, t, pool, k, cfg.maxAge, clock) {
      WrittenSame(m.store, h.store, own, k);
      if !Same(s, t, k) {
        PastStays(m.store, h.store, pool, k, cfg.maxAge, clock, s, t, clock);
      }
    }
  }

  /** One prunes, the other does not: what is gone on one side is past its time on the other. */
  lemma PruneSideBySide(cfg: Config, m: Memory, h: Memory, pool: set<Observation>, clock: Time, at: Time)
    requires SideBySide(cfg, m, h, pool, clock) && clock <= at
    ensures SideBySide(cfg, Pruned(cfg, m, at), Pruned(cfg, h, at).(store := h.store), pool, at)
  {
    var s, t := Pruned(cfg, m, at).store, h.store;
    forall k ensures Same(s, t, k) || Past(s, t, pool, k, cfg.maxAge, at) {
      if !Same(m.store, h.store, k) {
        PastStays(m.store, h.store, pool, k, cfg.maxAge, clock, s, t, at);
      } else if k in m.store && k !in s {
        var w := m.store[k];
        assert w in pool && KeyOf(w) == k && w.seen + Horizon(w, cfg.maxAge) < at;
      }
    }
  }

  lemma PingSideBySide(cfg: Config, m: Memory, h: Memory, pool: set<Observation>, clock: Time, n: Name, at: Time)
    requires SideBySide(cfg, m, h, pool, clock) && ReceiptFor(cfg, n, at) in pool && clock <= at
    ensures SideBySide(cfg, Pinged(cfg, m, n, at), Pinged(cfg, h, n, at), pool, at)
  {
    var s, t := Pinged(cfg, m, n, at).store, Pinged(cfg, h, n, at).store;
    forall k ensures Same(s, t, k) || Past(s, t, pool, k, cfg.maxAge, at) {
      if !Same(m.store, h.store, k) && k != KeyOf(ReceiptFor(cfg, n, at)) {
        PastStays(m.store, h.store, pool, k, cfg.maxAge, clock, s, t, at);
      }
    }
  }

  lemma EventSideBySide(cfg: Config, m: Memory, h: Memory, pool: set<Observation>, clock: Time, e: Event)
    requires SideBySide(cfg, m, h, pool, clock) && Brings(cfg, pool, e) && clock <= ClockAfter(clock, e)
    ensures SideBySide(cfg, After(cfg, m, e), Hoarded(cfg, h, e), pool, ClockAfter(clock, e))
  {
    match e
    case Hear(o) => HearSideBySide(cfg, m, h, pool, clock, o);
    case Part(n, at) => PartSideBySide(cfg, m, h, pool, clock, n, at);
    case Retire(s, at) => RetireSideBySide(cfg, m, h, pool, clock, s, at);
    case Flash(own, at) =>
      WrittenSideBySide(cfg, m, h, pool, clock, own);
      PruneSideBySide(cfg, m.(store := Written(m.store, own)), h.(store := Written(h.store, own)), pool, clock, at);
    case Ping(n, at) => PingSideBySide(cfg, m, h, pool, clock, n, at);
  }

  /** Time does not run backwards, and every word comes from the pool. */
  predicate Fed(cfg: Config, pool: set<Observation>, clock: Time, events: seq<Event>) {
    forall i :: 0 <= i < |events| ==>
      Brings(cfg, pool, events[i]) && ClockOf(clock, events[..i]) <= ClockAfter(ClockOf(clock, events[..i]), events[i])
  }

  lemma {:induction false} RunsSideBySide(cfg: Config, m: Memory, pool: set<Observation>, clock: Time,
                                          events: seq<Event>)
    requires WellKeyed(m.store) && m.store.Values <= pool && Fed(cfg, pool, clock, events)
    ensures SideBySide(cfg, Run(cfg, m, events), HoardRun(cfg, m, events), pool, ClockOf(clock, events))
  {
    if events != [] {
      var rest, e := events[..|events| - 1], events[|events| - 1];
      assert forall i :: 0 <= i < |rest| ==> rest[..i] == events[..i];
      RunsSideBySide(cfg, m, pool, clock, rest);
      EventSideBySide(cfg, Run(cfg, m, rest), HoardRun(cfg, m, rest), pool, ClockOf(clock, rest), e);
    }
  }

  lemma PastIsDead(cfg: Config, m: Memory, h: Memory, pool: set<Observation>, clock: Time, k: Key, now: Time)
    requires SideBySide(cfg, m, h, pool, clock) && Orderly(pool, cfg.maxAge) && cfg.maxAge > 0 && clock <= now
    requires !Same(m.store, h.store, k)
    ensures k in m.store ==> !Live(m.store[k], cfg.maxAge, now)
    ensures k in h.store ==> !Live(h.store[k], cfg.maxAge, now)
  {
    var w :| w in pool && KeyOf(w) == k && w.seen + Horizon(w, cfg.maxAge) < clock
             && (k in m.store ==> m.store[k].seen <= w.seen) && (k in h.store ==> h.store[k].seen <= w.seen);
    if k in m.store {
      assert m.store[k] in pool && Outlived(m.store[k], w, cfg.maxAge);
    }
    if k in h.store {
      assert h.store[k] in pool && Outlived(h.store[k], w, cfg.maxAge);
    }
  }

  lemma BallotAtKey(store: Store, s: Subject, maxAge: int, now: Time, n: Name)
    ensures
      var k, b := Key(n, s.check, s.target), BallotOf(store, s, maxAge, now);
      && (n in b <==> k in store && store[k].About() == s && Live(store[k], maxAge, now))
      && (n in b ==> b[n] == store[k])
  {
  }

  /**
   Garbage collection preserves meaning over whole runs: as long as no word outlives the keeping of a newer
   one under its key, a lantern that prunes reads every ballot exactly as one that never forgets a word.
   */
  lemma PruningIsNeverSeen(cfg: Config, m: Memory, pool: set<Observation>, clock: Time, events: seq<Event>, s: Subject,
                           now: Time)
    requires cfg.maxAge > 0 && WellKeyed(m.store) && m.store.Values <= pool
    requires Fed(cfg, pool, clock, events) && Orderly(pool, cfg.maxAge) && ClockOf(clock, events) <= now
    ensures BallotOf(Run(cfg, m, events).store, s, cfg.maxAge, now)
        == BallotOf(HoardRun(cfg, m, events).store, s, cfg.maxAge, now)
  {
    RunsSideBySide(cfg, m, pool, clock, events);
    var a, b := Run(cfg, m, events), HoardRun(cfg, m, events);
    var x, y := BallotOf(a.store, s, cfg.maxAge, now), BallotOf(b.store, s, cfg.maxAge, now);
    forall n ensures (n in x <==> n in y) && (n in x ==> x[n] == y[n]) {
      var k := Key(n, s.check, s.target);
      if !Same(a.store, b.store, k) {
        PastIsDead(cfg, a, b, pool, ClockOf(clock, events), k, now);
      }
      BallotAtKey(a.store, s, cfg.maxAge, now, n);
      BallotAtKey(b.store, s, cfg.maxAge, now, n);
    }
  }

  // ---- The condition is exact ----

  /** Prune at `at` with `w` in store, hear `o`, read at `now`: the two lanterns differ. */
  ghost predicate Seen(cfg: Config, w: Observation, o: Observation, at: Time, now: Time) {
    var m := BLANK.(store := map[KeyOf(w) := w]);
    var events := [Flash([], at), Hear(o)];
    at <= now
    && BallotOf(Run(cfg, m, events).store, o.About(), cfg.maxAge, now)
       != BallotOf(HoardRun(cfg, m, events).store, o.About(), cfg.maxAge, now)
  }

  lemma FlashOnOne(cfg: Config, w: Observation, at: Time)
    ensures
      var m := BLANK.(store := map[KeyOf(w) := w]);
      && After(cfg, m, Flash([], at))
          == BLANK.(store := if at - w.seen > Horizon(w, cfg.maxAge) then map[] else m.store)
      && Hoarded(cfg, m, Flash([], at)) == m
  {
  }

  lemma HearOnOne(id: Name, store: Store, o: Observation)
    requires id != o.observer
    ensures Heard(id, BLANK.(store := store), o).store == Newer(store, o)
  {
  }

  lemma TwoEvents(cfg: Config, m: Memory, e: Event, f: Event)
    ensures Run(cfg, m, [e, f]) == After(cfg, After(cfg, m, e), f)
    ensures HoardRun(cfg, m, [e, f]) == Hoarded(cfg, Hoarded(cfg, m, e), f)
  {
    assert [e, f][..1] == [e] && [e][..0] == [];
    assert Run(cfg, m, [e]) == After(cfg, m, e) && HoardRun(cfg, m, [e]) == Hoarded(cfg, m, e);
  }

  lemma TwoSteps(cfg: Config, w: Observation, o: Observation, at: Time)
    requires cfg.id != o.observer && KeyOf(o) == KeyOf(w)
    ensures
      var m := BLANK.(store := map[KeyOf(w) := w]);
      var events := [Flash([], at), Hear(o)];
      && Run(cfg, m, events).store
         == (if at - w.seen > Horizon(w, cfg.maxAge) || o.seen > w.seen then map[KeyOf(o) := o] else map[KeyOf(w) := w])
      && HoardRun(cfg, m, events).store == if o.seen > w.seen then map[KeyOf(o) := o] else map[KeyOf(w) := w]
  {
    var m := BLANK.(store := map[KeyOf(w) := w]);
    TwoEvents(cfg, m, Flash([], at), Hear(o));
    FlashOnOne(cfg, w, at);
    HearOnOne(cfg.id, After(cfg, m, Flash([], at)).store, o);
    HearOnOne(cfg.id, m.store, o);
  }

  lemma OldWordCounts(cfg: Config, w: Observation, o: Observation, at: Time)
    requires cfg.maxAge > 0 && cfg.id != o.observer && KeyOf(o) == KeyOf(w) && o.seen <= w.seen
    requires !Outlived(o, w, cfg.maxAge) && at == w.seen + Horizon(w, cfg.maxAge) + 1
    ensures Seen(cfg, w, o, at, at)
  {
    TwoSteps(cfg, w, o, at);
    var m := BLANK.(store := map[KeyOf(w) := w]);
    var events := [Flash([], at), Hear(o)];
    BallotAtKey(Run(cfg, m, events).store, o.About(), cfg.maxAge, at, o.observer);
    BallotAtKey(HoardRun(cfg, m, events).store, o.About(), cfg.maxAge, at, o.observer);
    assert Live(o, cfg.maxAge, at) && !Live(w, cfg.maxAge, at);
  }

  lemma OldWordIsDead(cfg: Config, w: Observation, o: Observation, at: Time, now: Time)
    requires cfg.maxAge > 0 && cfg.id != o.observer && KeyOf(o) == KeyOf(w) && o.seen <= w.seen
    requires Outlived(o, w, cfg.maxAge) && at <= now
    ensures !Seen(cfg, w, o, at, now)
  {
    TwoSteps(cfg, w, o, at);
    if at - w.seen > Horizon(w, cfg.maxAge) {
      assert !Live(o, cfg.maxAge, now) && !Live(w, cfg.maxAge, now);
      assert BallotOf(map[KeyOf(o) := o], o.About(), cfg.maxAge, now) == map[];
      assert BallotOf(map[KeyOf(w) := w], o.About(), cfg.maxAge, now) == map[];
    }
  }

  /**
   Conversely, whenever an older word does outlive the keeping of a newer one under its key, pruning shows:
   the newer goes, a peer hands the older back, and it counts.
   */
  lemma PruningShowsIff(cfg: Config, w: Observation, o: Observation)
    requires cfg.maxAge > 0 && cfg.id != o.observer && KeyOf(o) == KeyOf(w) && o.seen <= w.seen
    ensures (exists at: Time, now: Time :: Seen(cfg, w, o, at, now)) <==> !Outlived(o, w, cfg.maxAge)
  {
    if !Outlived(o, w, cfg.maxAge) {
      var at := w.seen + Horizon(w, cfg.maxAge) + 1;
      OldWordCounts(cfg, w, o, at);
      assert Seen(cfg, w, o, at, at);
    } else {
      forall at: Time, now: Time | at <= now ensures !Seen(cfg, w, o, at, now) {
        OldWordIsDead(cfg, w, o, at, now);
      }
    }
  }
}
