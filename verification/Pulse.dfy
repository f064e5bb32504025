/**
 internal/lantern/pulse.go, the dead man's switch: silence past a declared window becomes a down vote,
 measured from the newest ping the lantern has ever accepted.
 */
module Pulse {
  import opened Base
  import opened Quorum
  import opened Memory

  function Baseline(cfg: Config, m: Memory, p: Name): Time {
    if p in m.lastPulse && m.lastPulse[p] > cfg.start then m.lastPulse[p] else cfg.start
  }

  predicate Silent(cfg: Config, m: Memory, p: Name, now: Time) {
    p in cfg.pulses && now - Baseline(cfg, m, p) > cfg.pulses[p]
  }

  function VoteFor(cfg: Config, p: Name, now: Time): Observation {
    Observation(cfg.id, p, "pulse", Down, "", now, 0)
  }

  function SilenceVotes(cfg: Config, m: Memory, now: Time): set<Observation> {
    set p | p in cfg.pulses && Silent(cfg, m, p, now) :: VoteFor(cfg, p, now)
  }

  /** The ping time for `p`, if any, that one event hands to a lantern whose memory is `m`. */
  function Takes(m: Memory, e: Event, p: Name): seq<Time> {
    match e
    case Ping(n, at) => if n == p then [at] else []
    case Hear(o) =>
      if Receipt(o) && o.target == p && !(o.About() in m.forgotten && o.seen <= m.forgotten[o.About()]) then [o.seen]
          else []
    case _ => []
  }

  /** The ping times a lantern took in over a run: its own pings, and receipts no retirement refused. */
  function Accepted(cfg: Config, m: Memory, events: seq<Event>, p: Name): seq<Time> {
    if events == [] then []
    else
      var rest := events[..|events| - 1];
      Accepted(cfg, m, rest, p) + Takes(Run(cfg, m, rest), events[|events| - 1], p)
  }

  function Newest(times: seq<Time>, least: Time): Time {
    if times == [] then least else Max(Newest(times[..|times| - 1], least), times[|times| - 1])
  }

  lemma NewestOne(times: seq<Time>, t: Time, least: Time)
    ensures Newest(times + [t], least) == Max(Newest(times, least), t)
  {
    assert (times + [t])[..|times|] == times;
  }

  lemma OneEvent(cfg: Config, m: Memory, e: Event, p: Name)
    requires p in cfg.pulses
    ensures PulseAt(After(cfg, m, e).lastPulse, p)
         == if Takes(m, e, p) == [] then PulseAt(m.lastPulse, p) else Max(PulseAt(m.lastPulse, p), Takes(m, e, p)[0])
  {
  }

  /**
   A declared pulse's remembered time is the newest of everything ever accepted: no farewell, retirement
   or pruning makes a lantern forget a ping.
   */
  lemma {:induction false} BaselineIsNewestPing(cfg: Config, m: Memory, events: seq<Event>, p: Name)
    requires p in cfg.pulses
    ensures PulseAt(Run(cfg, m, events).lastPulse, p) == Newest(Accepted(cfg, m, events, p), PulseAt(m.lastPulse, p))
  {
    if events != [] {
      var rest, e := events[..|events| - 1], events[|events| - 1];
      BaselineIsNewestPing(cfg, m, rest, p);
      OneEvent(cfg, Run(cfg, m, rest), e, p);
      var times, more := Accepted(cfg, m, rest, p), Takes(Run(cfg, m, rest), e, p);
      if more == [] {
        assert times + more == times;
      } else {
        assert more == [more[0]];
        NewestOne(times, more[0], PulseAt(m.lastPulse, p));
      }
    }
  }

  /** Silence is voted exactly when the newest accepted ping, or the start, is longer ago than the window. */
  lemma SilenceVotedExactly(cfg: Config, events: seq<Event>, p: Name, now: Time)
    requires p in cfg.pulses && cfg.start >= ZERO_TIME
    ensures Observation(cfg.id, p, "pulse", Down, "", now, 0) in SilenceVotes(cfg, Run(cfg, BLANK, events), now)
      <==> now - Max(cfg.start, Newest(Accepted(cfg, BLANK, events, p), ZERO_TIME)) > cfg.pulses[p]
  {
    BaselineIsNewestPing(cfg, BLANK, events, p);
    var m := Run(cfg, BLANK, events);
    if VoteFor(cfg, p, now) in SilenceVotes(cfg, m, now) {
      var q :| q in cfg.pulses && Silent(cfg, m, q, now) && VoteFor(cfg, q, now) == VoteFor(cfg, p, now);
      assert q == VoteFor(cfg, q, now).target;
    }
  }

  /** Whatever the lantern says of silence is this lantern's own Down about a declared pulse, with no TTL. */
  lemma SilenceSaysDown(cfg: Config, m: Memory, now: Time, o: Observation)
    requires o in SilenceVotes(cfg, m, now)
    ensures o == Observation(cfg.id, o.target, "pulse", Down, "", now, 0) && o.target in cfg.pulses
  {
  }

  /** The remembered time never moves back. */
  lemma {:induction false} BaselineNeverFalls(cfg: Config, m: Memory, events: seq<Event>, more: seq<Event>, p: Name)
    requires p in cfg.pulses
    ensures PulseAt(Run(cfg, m, events).lastPulse, p) <= PulseAt(Run(cfg, m, events + more).lastPulse, p)
  {
    if more == [] {
      assert events + more == events;
    } else {
      var rest := more[..|more| - 1];
      assert (events + more)[..|events + more| - 1] == events + rest;
      BaselineNeverFalls(cfg, m, events, rest, p);
    }
  }

  // ---- A live receipt and this lantern's own down vote ----

  /** Every receipt in the store for a declared pulse is reflected in the remembered time. */
  ghost predicate Reflected(cfg: Config, m: Memory) {
    forall k :: k in m.store && Receipt(m.store[k]) && m.store[k].target in cfg.pulses ==>
      m.store[k].seen <= PulseAt(m.lastPulse, m.store[k].target)
  }

  lemma HeardReflected(cfg: Config, m: Memory, o: Observation)
    requires Reflected(cfg, m)
    ensures Reflected(cfg, Heard(cfg.id, m, o))
  {
  }

  lemma PingReflected(cfg: Config, m: Memory, p: Name, at: Time)
    requires Reflected(cfg, m)
    ensures Reflected(cfg, Pinged(cfg, m, p, at))
  {
  }

  lemma FlashReflected(cfg: Config, m: Memory, own: seq<Observation>, at: Time)
    requires Reflected(cfg, m) && forall o :: o in own ==> !Receipt(o)
    ensures Reflected(cfg, Flashed(cfg, m, own, at))
  {
    WrittenHas(m.store, own);
  }

  /** A flash reports checks and silence; it never forges a receipt. */
  predicate NoForgery(e: Event) {
    e.Flash? ==> forall o :: o in e.own ==> !Receipt(o)
  }

  lemma {:induction false} ReceiptsReflected(cfg: Config, events: seq<Event>)
    requires forall e :: e in events ==> NoForgery(e)
    ensures Reflected(cfg, Run(cfg, BLANK, events))
  {
    if events != [] {
      var rest, e := events[..|events| - 1], events[|events| - 1];
      assert events == rest + [e] && NoForgery(e);
      ReceiptsReflected(cfg, rest);
      var m := Run(cfg, BLANK, rest);
      match e
      case Hear(o) => HeardReflected(cfg, m, o);
      case Ping(p, at) => PingReflected(cfg, m, p, at);
      case Flash(own, at) => FlashReflected(cfg, m, own, at);
      case _ =>
    }
  }

  /**
   A receipt carrying this lantern's own TTL is never replaced by its own down vote while it is live,
   provided the window is at least a second.
   */
  lemma LiveReceiptIsNotOverwritten(cfg: Config, events: seq<Event>, p: Name, now: Time)
    requires forall e :: e in events ==> NoForgery(e)
    requires cfg.start >= ZERO_TIME
    requires p in cfg.pulses && cfg.pulses[p] >= SECOND
    requires
      var m := Run(cfg, BLANK, events);
      var k := Key(cfg.id, "pulse", p);
      k in m.store && KeyOf(m.store[k]) == k && Receipt(m.store[k]) && m.store[k].ttl == ReceiptTTL(cfg, p)
      && Live(m.store[k], cfg.maxAge, now)
    ensures !Silent(cfg, Run(cfg, BLANK, events), p, now)
  {
    ReceiptsReflected(cfg, events);
    var m := Run(cfg, BLANK, events);
    var o := m.store[Key(cfg.id, "pulse", p)];
    assert o.target == p && o.seen <= PulseAt(m.lastPulse, p) <= Baseline(cfg, m, p);
    assert Cutoff(o, cfg.maxAge) == (cfg.pulses[p] / SECOND) * SECOND <= cfg.pulses[p];
  }

  /** The record of a ping of this job at `at`: alive for its window in whole seconds, or, undeclared, for 25 hours. */
  predicate RecordOf(cfg: Config, o: Observation, p: Name, at: Time) {
    o == Observation(cfg.id, p, "pulse", Up, "", at, if p in cfg.pulses then cfg.pulses[p] / SECOND else 25 * 3600)
  }

  /** The ping at `at` is on record, and the lantern knows of none older. */
  ghost predicate OnRecord(cfg: Config, m: Memory, p: Name, at: Time) {
    var k := Key(cfg.id, "pulse", p);
    && k in m.store && RecordOf(cfg, m.store[k], p, at)
    && (p in cfg.pulses ==> p in m.lastPulse && m.lastPulse[p] >= at)
  }

  /**
   What leaves a record alone up to `now`: anything but a retirement of the job and newer word of it. A flash may say
   silence where the job has been silent.
   */
  predicate LeavesRecord(cfg: Config, m: Memory, p: Name, at: Time, now: Time, e: Event) {
    match e
    case Ping(n, _) => n != p
    case Hear(o) => KeyOf(o) == Key(cfg.id, "pulse", p) ==> o.seen <= at
    case Part(_, _) => true
    case Retire(s, _) => s != Subject("pulse", p)
    case Flash(own, t) =>
      t <= now && forall o :: o in own && KeyOf(o) == Key(cfg.id, "pulse", p) ==> Silent(cfg, m, p, t)
  }

  lemma EventLeavesRecord(cfg: Config, m: Memory, p: Name, at: Time, now: Time, e: Event)
    requires p in cfg.pulses ==> cfg.pulses[p] >= SECOND
    requires now - at <= if p in cfg.pulses then cfg.pulses[p] / SECOND * SECOND else 25 * 3600 * SECOND
    requires OnRecord(cfg, m, p, at) && LeavesRecord(cfg, m, p, at, now, e)
    ensures OnRecord(cfg, After(cfg, m, e), p, at)
  {
    if e.Flash? {
      assert p in cfg.pulses ==> !Silent(cfg, m, p, e.at);
      WrittenElsewhere(m.store, e.own, Key(cfg.id, "pulse", p));
    }
  }

  /**
   A ping is on record. Whatever else happens, short of a retirement of the job and newer word of it, the record is in
   the store, and on the ballot as this lantern's Up, until the window it was declared with has passed, or 25 hours.
   */
  lemma {:induction false} PingIsOnRecord(cfg: Config, m: Memory, p: Name, at: Time, events: seq<Event>, now: Time)
    requires at > ZERO_TIME && (p in cfg.pulses ==> cfg.pulses[p] >= SECOND)
    requires now - at <= if p in cfg.pulses then cfg.pulses[p] / SECOND * SECOND else 25 * 3600 * SECOND
    requires forall i :: 0 <= i < |events| ==>
      LeavesRecord(cfg, Run(cfg, Pinged(cfg, m, p, at), events[..i]), p, at, now, events[i])
    ensures
      var m' := Run(cfg, Pinged(cfg, m, p, at), events);
      var b := BallotOf(m'.store, Subject("pulse", p), cfg.maxAge, now);
      OnRecord(cfg, m', p, at) && cfg.id in b && RecordOf(cfg, b[cfg.id], p, at)
  {
    if events != [] {
      var rest, e := events[..|events| - 1], events[|events| - 1];
      assert forall i :: 0 <= i < |rest| ==> rest[..i] == events[..i];
      PingIsOnRecord(cfg, m, p, at, rest, now);
      EventLeavesRecord(cfg, Run(cfg, Pinged(cfg, m, p, at), rest), p, at, now, e);
    }
  }

  /** A ping at `t` is still live at `now`, and yet the window has passed. */
  predicate Overwritten(window: int, start: Time, t: Time, now: Time) {
    var cfg := Config("me", 1, map["job" := window], start);
    var m := Pinged(cfg, BLANK, "job", t);
    Live(ReceiptFor(cfg, "job", t), cfg.maxAge, now) && Silent(cfg, m, "job", now)
  }

  /** The bound is exact: below a second the receipt falls back to a 25 hour TTL and the vote does replace it. */
  lemma OverwrittenIffWindowBelowASecond(window: int)
    ensures (exists start: Time, t: Time, now: Time :: t > ZERO_TIME && Overwritten(window, start, t, now))
        <==> window < SECOND
  {
    if window < SECOND {
      assert Overwritten(window, 1, 1, 1 + Max(window + 1, 0));
    }
  }
}
