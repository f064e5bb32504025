/**
 internal/lantern/lantern.go and pulse.go: what one lantern remembers, and how gossip, farewells,
 retirements, pings and flashes change it. The values here are the specification of the `Lantern`
 class; the theorems are about any sequence of these events.
 */
module Memory {
  import opened Base
  import opened Quorum

  const TOMBSTONE_AFTER: int := 72 * HOUR

  const DEFAULT_PULSE_TTL: int := 90000

  datatype Memory = Memory(
    store: Store, departed: map<Name, Time>, forgotten: map<Subject, Time>, lastPulse: map<Name, Time>)

  const BLANK: Memory := Memory(map[], map[], map[], map[])

  /** The part of a lantern's configuration its memory depends on. */
  datatype Config = Config(id: Name, maxAge: int, pulses: map<Name, int>, start: Time)

  /** A receipt records that a job pinged; it is a fact, not an opinion, and passes most guards. */
  predicate Receipt(o: Observation) {
    o.check == "pulse" && o.state == Up
  }

  function PulseAt(lastPulse: map<Name, Time>, name: Name): Time {
    if name in lastPulse then lastPulse[name] else ZERO_TIME
  }

  /** One gossiped observation, all guards in the source's order. */
  function Heard(id: Name, m: Memory, o: Observation): Memory {
    if o.observer == id && !Receipt(o) then m
    else if o.observer in m.departed && !Receipt(o) && o.seen <= m.departed[o.observer] then m
    else
      var departed := if Receipt(o) then m.departed else m.departed - {o.observer};
      if o.target in departed && o.seen <= departed[o.target] && !Receipt(o) then m.(departed := departed)
      else if o.About() in m.forgotten && o.seen <= m.forgotten[o.About()] then m.(departed := departed)
      else
        Memory(
          if KeyOf(o) !in m.store || o.seen > m.store[KeyOf(o)].seen then m.store[KeyOf(o) := o] else m.store,
          departed,
          m.forgotten - {o.About()},
          if Receipt(o) && o.seen > PulseAt(m.lastPulse, o.target) then m.lastPulse[o.target := o.seen]
              else m.lastPulse)
  }

  function HeardAll(id: Name, m: Memory, obs: seq<Observation>): Memory {
    if obs == [] then m else Heard(id, HeardAll(id, m, obs[..|obs| - 1]), obs[|obs| - 1])
  }

  predicate OutlivesFarewell(o: Observation, name: Name) {
    Receipt(o) || (o.observer != name && o.target != name)
  }

  function WithoutWordOf(store: Store, name: Name): Store {
    map k | k in store && OutlivesFarewell(store[k], name) :: store[k]
  }

  /** A graceful farewell of `name`: its word and everything said about it goes, receipts stay. */
  function Parted(m: Memory, name: Name, now: Time): Memory {
    m.(store := WithoutWordOf(m.store, name), departed := m.departed[name := now])
  }

  function WithoutSubject(store: Store, s: Subject): Store {
    map k | k in store && store[k].About() != s :: store[k]
  }

  /** The operator retires one subject. */
  function Retired(m: Memory, s: Subject, now: Time): Memory {
    m.(store := WithoutSubject(m.store, s), forgotten := m.forgotten[s := now])
  }

  /** How long past any chance of counting an observation is kept. */
  function Horizon(o: Observation, maxAge: int): int {
    Max(3 * Cutoff(o, maxAge), HOUR)
  }

  function Pruned(cfg: Config, m: Memory, now: Time): Memory {
    Memory(
      map k | k in m.store && now - m.store[k].seen <= Horizon(m.store[k], cfg.maxAge) :: m.store[k],
      map n | n in m.departed && now - m.departed[n] <= TOMBSTONE_AFTER :: m.departed[n],
      map s | s in m.forgotten && now - m.forgotten[s] <= TOMBSTONE_AFTER :: m.forgotten[s],
      map n | n in m.lastPulse && (n in cfg.pulses || now - m.lastPulse[n] <= TOMBSTONE_AFTER) :: m.lastPulse[n])
  }

  function Written(store: Store, own: seq<Observation>): Store {
    if own == [] then store else Written(store, own[..|own| - 1])[KeyOf(own[|own| - 1]) := own[|own| - 1]]
  }

  /** A flash writes this lantern's fresh observations and prunes. */
  function Flashed(cfg: Config, m: Memory, own: seq<Observation>, now: Time): Memory {
    Pruned(cfg, m.(store := Written(m.store, own)), now)
  }

  function ReceiptTTL(cfg: Config, name: Name): int {
    if name in cfg.pulses && cfg.pulses[name] >= SECOND then cfg.pulses[name] / SECOND else DEFAULT_PULSE_TTL
  }

  function ReceiptFor(cfg: Config, name: Name, now: Time): Observation {
    Observation(cfg.id, name, "pulse", Up, "", now, ReceiptTTL(cfg, name))
  }

  /** A job pings this lantern. */
  function Pinged(cfg: Config, m: Memory, name: Name, now: Time): Memory {
    var o := ReceiptFor(cfg, name, now);
    m.(store := m.store[KeyOf(o) := o],
       lastPulse := if now > PulseAt(m.lastPulse, name) then m.lastPulse[name := now] else m.lastPulse)
  }

  datatype Event =
    | Hear(o: Observation)
    | Part(name: Name, at: Time)
    | Retire(subject: Subject, at: Time)
    | Flash(own: seq<Observation>, at: Time)
    | Ping(name: Name, at: Time)

  function After(cfg: Config, m: Memory, e: Event): Memory {
    match e
    case Hear(o) => Heard(cfg.id, m, o)
    case Part(n, at) => Parted(m, n, at)
    case Retire(s, at) => Retired(m, s, at)
    case Flash(own, at) => Flashed(cfg, m, own, at)
    case Ping(n, at) => Pinged(cfg, m, n, at)
  }

  function Run(cfg: Config, m: Memory, events: seq<Event>): Memory {
    if events == [] then m else After(cfg, Run(cfg, m, events[..|events| - 1]), events[|events| - 1])
  }

  /** A flash writes only this lantern's own word, and nobody says farewell to themselves. */
  predicate Honest(cfg: Config, e: Event) {
    && (e.Flash? ==> forall o :: o in e.own ==> o.observer == cfg.id)
    && (e.Part? ==> e.name != cfg.id)
  }

  lemma {:induction false} WrittenHas(store: Store, own: seq<Observation>)
    ensures forall k :: k in Written(store, own) ==>
      (k in store && Written(store, own)[k] == store[k])
          || (Written(store, own)[k] in own && k == KeyOf(Written(store, own)[k]))
    ensures store.Keys <= Written(store, own).Keys
  {
    if own != [] {
      WrittenHas(store, own[..|own| - 1]);
    }
  }

  lemma {:induction false} WrittenElsewhere(store: Store, own: seq<Observation>, k: Key)
    requires forall o :: o in own ==> KeyOf(o) != k
    ensures k in Written(store, own) <==> k in store
    ensures k in store ==> Written(store, own)[k] == store[k]
  {
    if own != [] {
      assert own == own[..|own| - 1] + [own[|own| - 1]];
      WrittenElsewhere(store, own[..|own| - 1], k);
    }
  }

  lemma {:induction false} RunWellKeyed(cfg: Config, m: Memory, events: seq<Event>)
    requires WellKeyed(m.store)
    ensures WellKeyed(Run(cfg, m, events).store)
  {
    if events != [] {
      var e := events[|events| - 1];
      var before := Run(cfg, m, events[..|events| - 1]);
      RunWellKeyed(cfg, m, events[..|events| - 1]);
      if e.Flash? {
        WrittenHas(before.store, e.own);
      }
    }
  }

  function Bare(o: Observation): Observation {
    o.(detail := "")
  }

  /** Two observations that differ at most in the detail, which a flash may have trimmed. */
  predicate Alike(o: Observation, p: Observation) {
    Bare(o) == Bare(p)
  }

  // ---- Tombstones ----

  /** While a tombstone stands, no peer's word on what it covers is held (receipts excepted for farewells). */
  ghost predicate Buried(id: Name, m: Memory) {
    && id !in m.departed
    && forall k :: k in m.store ==>
      var o := m.store[k];
      && (o.About() in m.forgotten ==> o.observer == id)
      && (!Receipt(o) ==> o.observer !in m.departed)
      && (!Receipt(o) && o.observer != id && o.target in m.departed ==> o.seen > m.departed[o.target])
  }

  lemma HeardStaysBuried(id: Name, m: Memory, o: Observation)
    requires Buried(id, m)
    ensures Buried(id, Heard(id, m, o))
  {
  }

  lemma FarewellStaysBuried(id: Name, m: Memory, name: Name, now: Time)
    requires Buried(id, m) && name != id
    ensures Buried(id, Parted(m, name, now))
  {
  }

  lemma RetirementStaysBuried(id: Name, m: Memory, s: Subject, now: Time)
    requires Buried(id, m)
    ensures Buried(id, Retired(m, s, now))
  {
  }

  lemma FlashStaysBuried(cfg: Config, m: Memory, own: seq<Observation>, now: Time)
    requires Buried(cfg.id, m) && forall o :: o in own ==> o.observer == cfg.id
    ensures Buried(cfg.id, Flashed(cfg, m, own, now))
  {
    WrittenHas(m.store, own);
  }

  /** ... after any run of gossip, farewells, retirements, flashes and pings. */
  lemma {:induction false} TombstonesHold(cfg: Config, m: Memory, events: seq<Event>)
    requires Buried(cfg.id, m) && forall e :: e in events ==> Honest(cfg, e)
    ensures Buried(cfg.id, Run(cfg, m, events))
  {
    if events != [] {
      var rest, e := events[..|events| - 1], events[|events| - 1];
      assert events == rest + [e] && e in events && Honest(cfg, e);
      TombstonesHold(cfg, m, rest);
      match e
      case Hear(o) => HeardStaysBuried(cfg.id, Run(cfg, m, rest), o);
      case Flash(own, at) => FlashStaysBuried(cfg, Run(cfg, m, rest), own, at);
      case _ =>
    }
  }

  /** A peer's opinion by or about `n` from before the farewell at `parted`. */
  predicate Ghost(id: Name, n: Name, parted: Time, o: Observation) {
    o.observer != id && !Receipt(o) && (o.observer == n || o.target == n) && o.seen <= parted
  }

  /** Ghosts are kept out by the tombstone, or by their age once the tombstone may be gone. */
  ghost predicate Laid(cfg: Config, m: Memory, n: Name, parted: Time, clock: Time) {
    && ((n in m.departed && parted <= m.departed[n]) || clock - parted > 72 * HOUR)
    && forall k :: k in m.store && Ghost(cfg.id, n, parted, m.store[k]) ==>
      clock - parted > 72 * HOUR && m.store[k].ttl * SECOND <= 72 * HOUR
  }

  function ClockAfter(clock: Time, e: Event): Time {
    if e.Hear? then clock else e.at
  }

  /** What the environment must respect for the farewell of `n` to be final. */
  predicate StaysAway(cfg: Config, n: Name, parted: Time, clock: Time, e: Event) {
    && Honest(cfg, e) && clock <= ClockAfter(clock, e)
    && (e.Hear? ==> e.o.ttl * SECOND <= 72 * HOUR
                    && (e.o.observer == n && !Receipt(e.o) ==> e.o.seen <= parted))
  }

  lemma HeardStaysLaid(cfg: Config, m: Memory, n: Name, parted: Time, clock: Time, o: Observation)
    requires Laid(cfg, m, n, parted, clock) && StaysAway(cfg, n, parted, clock, Hear(o))
    ensures Laid(cfg, Heard(cfg.id, m, o), n, parted, clock)
  {
  }

  lemma FlashStaysLaid(cfg: Config, m: Memory, n: Name, parted: Time, clock: Time, own: seq<Observation>, now: Time)
    requires Laid(cfg, m, n, parted, clock) && StaysAway(cfg, n, parted, clock, Flash(own, now))
    ensures Laid(cfg, Flashed(cfg, m, own, now), n, parted, now)
  {
    WrittenHas(m.store, own);
  }

  function ClockOf(clock: Time, events: seq<Event>): Time {
    if events == [] then clock else ClockAfter(ClockOf(clock, events[..|events| - 1]), events[|events| - 1])
  }

  predicate AllStayAway(cfg: Config, n: Name, parted: Time, events: seq<Event>) {
    forall i :: 0 <= i < |events| ==> StaysAway(cfg, n, parted, ClockOf(parted, events[..i]), events[i])
  }

  lemma {:induction false} GhostsStayLaid(cfg: Config, m: Memory, n: Name, parted: Time, events: seq<Event>)
    requires n != cfg.id && AllStayAway(cfg, n, parted, events)
    ensures Laid(cfg, Run(cfg, Parted(m, n, parted), events), n, parted, ClockOf(parted, events))
    ensures parted <= ClockOf(parted, events)
  {
    if events != [] {
      var rest, e := events[..|events| - 1], events[|events| - 1];
      assert forall i :: 0 <= i < |rest| ==> rest[..i] == events[..i];
      GhostsStayLaid(cfg, m, n, parted, rest);
      var before, clock := Run(cfg, Parted(m, n, parted), rest), ClockOf(parted, rest);
      match e
      case Hear(o) => HeardStaysLaid(cfg, before, n, parted, clock, o);
      case Flash(own, at) => FlashStaysLaid(cfg, before, n, parted, clock, own, at);
      case _ =>
    }
  }

  /**
   No ghost ever votes. After a farewell of `n` at `parted`, and for as long as no later word of `n` is
   heard, nothing a peer said by or about `n` up to then is on any ballot again, not even after the
   tombstone has been dropped, as long as no observation lives longer than the tombstone.
   */
  lemma NoGhostVotes(cfg: Config, m: Memory, n: Name, parted: Time, events: seq<Event>, s: Subject, now: Time)
    requires n != cfg.id && 0 < cfg.maxAge <= 72 * HOUR
    requires AllStayAway(cfg, n, parted, events) && ClockOf(parted, events) <= now
    ensures
      var b := BallotOf(Run(cfg, Parted(m, n, parted), events).store, s, cfg.maxAge, now);
      forall x :: x in b ==> !Ghost(cfg.id, n, parted, b[x])
  {
    GhostsStayLaid(cfg, m, n, parted, events);
  }

  // ---- A retired subject stays retired ----

  /** A peer's word on the subject from before its retirement at `retired`, receipts included. */
  predicate Relic(id: Name, s: Subject, retired: Time, o: Observation) {
    o.observer != id && o.check == s.check && o.target == s.target && o.seen <= retired
  }

  /** Relics are kept out by the tombstone, or by their age once the tombstone may be gone. */
  ghost predicate Closed(cfg: Config, m: Memory, s: Subject, retired: Time, clock: Time) {
    && ((s in m.forgotten && retired <= m.forgotten[s]) || clock - retired > 72 * HOUR)
    && forall k :: k in m.store && Relic(cfg.id, s, retired, m.store[k]) ==>
      clock - retired > 72 * HOUR && m.store[k].ttl * SECOND <= 72 * HOUR
  }

  /** What the environment must respect for the retirement of `s` to be final: nobody watches it any more. */
  predicate StaysRetired(cfg: Config, s: Subject, retired: Time, clock: Time, e: Event) {
    && Honest(cfg, e) && clock <= ClockAfter(clock, e)
    && (e.Hear? ==> e.o.ttl * SECOND <= 72 * HOUR && (e.o.About() == s ==> e.o.seen <= retired))
  }

  predicate AllStayRetired(cfg: Config, s: Subject, retired: Time, events: seq<Event>) {
    forall i :: 0 <= i < |events| ==> StaysRetired(cfg, s, retired, ClockOf(retired, events[..i]), events[i])
  }

  lemma HeardStaysClosed(cfg: Config, m: Memory, s: Subject, retired: Time, clock: Time, o: Observation)
    requires Closed(cfg, m, s, retired, clock) && StaysRetired(cfg, s, retired, clock, Hear(o))
    ensures Closed(cfg, Heard(cfg.id, m, o), s, retired, clock)
  {
  }

  lemma FlashStaysClosed(cfg: Config, m: Memory, s: Subject, retired: Time, clock: Time, own: seq<Observation>,
                         now: Time)
    requires Closed(cfg, m, s, retired, clock) && StaysRetired(cfg, s, retired, clock, Flash(own, now))
    ensures Closed(cfg, Flashed(cfg, m, own, now), s, retired, now)
  {
    WrittenHas(m.store, own);
  }

  lemma {:induction false} RelicsStayOut(cfg: Config, m: Memory, s: Subject, retired: Time, events: seq<Event>)
    requires AllStayRetired(cfg, s, retired, events)
    ensures Closed(cfg, Run(cfg, Retired(m, s, retired), events), s, retired, ClockOf(retired, events))
    ensures retired <= ClockOf(retired, events)
  {
    if events != [] {
      var rest, e := events[..|events| - 1], events[|events| - 1];
      assert forall i :: 0 <= i < |rest| ==> rest[..i] == events[..i];
      RelicsStayOut(cfg, m, s, retired, rest);
      var before, clock := Run(cfg, Retired(m, s, retired), rest), ClockOf(retired, rest);
      match e
      case Hear(o) => HeardStaysClosed(cfg, before, s, retired, clock, o);
      case Flash(own, at) => FlashStaysClosed(cfg, before, s, retired, clock, own, at);
      case _ =>
    }
  }

  /**
   A retired subject does not come back by itself. For as long as no word on it from after the retirement is heard,
   no peer's earlier word on it is in the store for 72 hours, nor on a ballot ever again if no TTL exceeds those.
   */
  lemma NoRelicVotes(cfg: Config, m: Memory, s: Subject, retired: Time, events: seq<Event>, now: Time)
    requires 0 < cfg.maxAge <= 72 * HOUR
    requires AllStayRetired(cfg, s, retired, events) && ClockOf(retired, events) <= now
    ensures
      var m' := Run(cfg, Retired(m, s, retired), events);
      && (ClockOf(retired, events) - retired <= 72 * HOUR ==>
            forall k :: k in m'.store ==> !Relic(cfg.id, s, retired, m'.store[k]))
      && (forall x :: x in BallotOf(m'.store, s, cfg.maxAge, now) ==>
            !Relic(cfg.id, s, retired, BallotOf(m'.store, s, cfg.maxAge, now)[x]))
  {
    RelicsStayOut(cfg, m, s, retired, events);
  }

  // ---- What a flash forgets ----

  /** How long a word counts, in nanoseconds. */
  function Lifetime(o: Observation, maxAge: int): int {
    if o.ttl > 0 then o.ttl * 1_000_000_000 else maxAge
  }

  /**
   What a flash at `now` leaves of everything it does not write itself: a word if and only if it is at most three
   lifetimes old, or an hour; a tombstone if and only if it is at most 72 hours old; the ping of an undeclared job
   likewise, and those of declared jobs for good.
   */
  lemma FlashForgets(cfg: Config, m: Memory, own: seq<Observation>, now: Time, k: Key, n: Name, s: Subject)
    requires forall o :: o in own ==> KeyOf(o) != k
    ensures
      var m' := Flashed(cfg, m, own, now);
      && (k in m'.store <==>
            k in m.store && now - m.store[k].seen <= Max(3 * Lifetime(m.store[k], cfg.maxAge), 3600 * SECOND))
      && (k in m'.store ==> m'.store[k] == m.store[k])
      && (n in m'.departed <==> n in m.departed && now - m.departed[n] <= 72 * HOUR)
      && (s in m'.forgotten <==> s in m.forgotten && now - m.forgotten[s] <= 72 * HOUR)
      && (n in m'.lastPulse <==> n in m.lastPulse && (n in cfg.pulses || now - m.lastPulse[n] <= 72 * HOUR))
  {
    WrittenElsewhere(m.store, own, k);
  }

  // ---- Pruning ----

  lemma LiveIsKept(o: Observation, maxAge: int, now: Time, later: Time)
    requires maxAge > 0 && now <= later && Live(o, maxAge, later)
    ensures now - o.seen <= Horizon(o, maxAge)
  {
  }

  /** What a flash prunes could never be counted again: every later ballot is the same without it. */
  lemma PruneLosesNoVote(cfg: Config, m: Memory, now: Time, s: Subject, later: Time)
    requires cfg.maxAge > 0 && now <= later
    ensures BallotOf(Pruned(cfg, m, now).store, s, cfg.maxAge, later) == BallotOf(m.store, s, cfg.maxAge, later)
  {
    var b, c := BallotOf(Pruned(cfg, m, now).store, s, cfg.maxAge, later), BallotOf(m.store, s, cfg.maxAge, later);
    forall n | n in c ensures n in b && b[n] == c[n] {
      LiveIsKept(c[n], cfg.maxAge, now, later);
      assert Key(n, s.check, s.target) in Pruned(cfg, m, now).store;
    }
    forall n | n in b ensures n in c {
      assert Key(n, s.check, s.target) in m.store;
    }
  }
}
