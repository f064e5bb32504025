/**
 internal/lantern/lantern.go, the first half of `flash`, by what its checks find: which state an outcome becomes,
 what is remembered of it, and that a check which always passes is never heard of.
 */
module Outcomes {
  import opened Base
  import opened Quorum
  import opened Pacing
  import T = Tracker
  import L = TrackerLife
  import H = HoldDown

  // ---- What a run says ----

  /**
   The check runs at this flash: it is not paced, or has never run, or its cadence is over, or, if it failed, half a
   minute is.
   */
  predicate RunsNow(cfg: Config, p: Pace, c: Check, now: Time) {
    || c.every.None? || c.every.value <= cfg.interval || c.About() !in p.lastRun
    || now - p.lastRun[c.About()]
       >= if c.About() in p.lastVerdict && p.lastVerdict[c.About()] == Failed then Min(c.every.value, 30 * SECOND)
          else c.every.value
  }

  /** The word is what such a run has to say: up, warn or down as the check passed, warned or failed. */
  predicate Tells(cfg: Config, c: Check, res: Result, now: Time, o: Observation) {
    && o.observer == cfg.id && o.target == c.target && o.check == c.name && o.detail == res.detail && o.seen == now
    && (o.state == Up <==> res.outcome == Passed)
    && (o.state == Warn <==> res.outcome == Warning)
    && (o.state == Down <==> res.outcome == Failed)
    && o.ttl == if c.every.Some? && c.every.value > cfg.interval then 5 * c.every.value / SECOND
                else 3 * cfg.maxAge / SECOND
  }

  /**
   What one check does in one flash. If it does not run, nothing; if it does, it says one word, unless it does not
   apply; a paced one is remembered with its outcome; and an address it got to is written into the book.
   */
  lemma RunTellsOutcome(cfg: Config, p: Pace, c: Check, res: Result, now: Time)
    ensures
      var (p', word) := Probed(cfg, p, c, res, now);
      var s := c.About();
      if !RunsNow(cfg, p, c, now) then p' == p && word == []
      else
        && |word| == (if res.outcome == NotApplicable then 0 else 1)
        && (forall o :: o in word ==> Tells(cfg, c, res, now, o))
        && p'.addrs == (if res.addr == "" then p.addrs else p.addrs[s := res.addr])
        && if c.every.Some? && c.every.value > cfg.interval
           then p'.lastRun == p.lastRun[s := now] && p'.lastVerdict == p.lastVerdict[s := res.outcome]
           else p'.lastRun == p.lastRun && p'.lastVerdict == p.lastVerdict
  {
  }

  predicate SamePace(p: Pace, q: Pace, s: Subject) {
    && (s in p.lastRun <==> s in q.lastRun) && (s in p.lastRun ==> p.lastRun[s] == q.lastRun[s])
    && (s in p.lastVerdict <==> s in q.lastVerdict) && (s in p.lastVerdict ==> p.lastVerdict[s] == q.lastVerdict[s])
    && (s in p.addrs <==> s in q.addrs) && (s in p.addrs ==> p.addrs[s] == q.addrs[s])
  }

  lemma ProbedReadsOwn(cfg: Config, p: Pace, q: Pace, c: Check, res: Result, now: Time)
    requires SamePace(p, q, c.About())
    ensures Probed(cfg, p, c, res, now).1 == Probed(cfg, q, c, res, now).1
    ensures SamePace(Probed(cfg, p, c, res, now).0, Probed(cfg, q, c, res, now).0, c.About())
  {
  }

  lemma WordIsAbout(cfg: Config, p: Pace, c: Check, res: Result, now: Time)
    ensures forall o :: o in Probed(cfg, p, c, res, now).1 ==> o.About() == c.About()
  {
  }

  lemma ProbedLeavesOthers(cfg: Config, p: Pace, c: Check, res: Result, now: Time, s: Subject)
    requires c.About() != s
    ensures SamePace(Probed(cfg, p, c, res, now).0, p, s)
  {
  }

  lemma {:induction false} ElsewhereApart(cfg: Config, p: Pace, checks: seq<Check>, results: seq<Result>, now: Time,
                                          s: Subject)
    requires |results| == |checks| && forall c :: c in checks ==> c.About() != s
    ensures SamePace(ProbedAll(cfg, p, checks, results, now).0, p, s)
    ensures forall o :: o in ProbedAll(cfg, p, checks, results, now).1 ==> o.About() != s
  {
    if checks != [] {
      var n := |checks| - 1;
      assert checks == checks[..n] + [checks[n]];
      assert checks[n] in checks;
      ElsewhereApart(cfg, p, checks[..n], results[..n], now, s);
    }
  }

  /** A flash keeps its checks apart: if no other is configured for its subject, each does what it would do alone. */
  lemma {:induction false} ChecksAreApart(cfg: Config, p: Pace, checks: seq<Check>, results: seq<Result>, now: Time,
                                          i: nat)
    requires |results| == |checks| && i < |checks|
    requires forall j :: 0 <= j < |checks| && j != i ==> checks[j].About() != checks[i].About()
    ensures
      var (p', words) := ProbedAll(cfg, p, checks, results, now);
      var (q, word) := Probed(cfg, p, checks[i], results[i], now);
      && (forall o :: o in words && o.About() == checks[i].About() <==> o in word)
      && SamePace(p', q, checks[i].About())
  {
    var n := |checks| - 1;
    var p1 := ProbedAll(cfg, p, checks[..n], results[..n], now).0;
    if i == n {
      ElsewhereApart(cfg, p, checks[..n], results[..n], now, checks[n].About());
      ProbedReadsOwn(cfg, p1, p, checks[n], results[n], now);
      WordIsAbout(cfg, p, checks[n], results[n], now);
    } else {
      ChecksAreApart(cfg, p, checks[..n], results[..n], now, i);
      WordIsAbout(cfg, p1, checks[n], results[n], now);
      ProbedLeavesOthers(cfg, p1, checks[n], results[n], now, checks[i].About());
    }
  }

  // ---- A healthy check ----

  /** Whenever the check runs it passes, and nobody else speaks of it. */
  ghost predicate AllPass(cfg: Config, tcfg: T.Config, c: Check, flashes: seq<Flash>) {
    flashes != [] ==>
      var rest, f := flashes[..|flashes| - 1], flashes[|flashes| - 1];
      && AllPass(cfg, tcfg, c, rest)
      && (forall o :: o in f.others ==> o.About() != c.About())
      && (forall d :: d in f.verdicts ==> d.About() != c.About())
      && (RunsNow(cfg, Nights(cfg, tcfg, c, rest).pace, c, f.at) ==> f.res.outcome == Passed)
  }

  predicate NothingAmiss(r: T.Row, t: seq<T.Mark>) {
    r.Committed() == Up && !r.flapping && forall m :: m in t && m.Step? ==> !m.committed && m.page == None
  }

  /** The lantern knows the check as up, and has never had anything to announce about it. */
  ghost predicate Healthy(cfg: Config, c: Check, l: Lone) {
    && WellKeyed(l.store) && OwnOnly(cfg, c, l.store)
    && (OwnKey(cfg, c) in l.store ==> l.store[OwnKey(cfg, c)].state == Up)
    && NothingAmiss(l.life.row, l.life.trace)
  }

  lemma UpStep(tcfg: T.Config, s: Subject, r: T.Row, alive: seq<Name>, now: Time)
    requires NothingAmiss(r, [])
    ensures
      var (r', m) := T.StepRow(tcfg, s, r, Up, alive, now);
      NothingAmiss(r', []) && m.Step? && !m.committed && m.page == None
  {
  }

  lemma {:induction false} UpStaysWell(tcfg: T.Config, s: Subject, r: T.Row, states: seq<State>, alive: seq<Name>,
                                     now: Time)
    requires NothingAmiss(r, []) && forall x :: x in states ==> x == Up
    ensures
      var (r', t) := L.Fed(tcfg, s, r, states, alive, now);
      NothingAmiss(r', t)
  {
    if states != [] {
      var rest := states[..|states| - 1];
      assert states == rest + [states[|states| - 1]];
      assert states[|states| - 1] in states && forall x :: x in rest ==> x in states;
      UpStaysWell(tcfg, s, r, rest, alive, now);
      UpStep(tcfg, s, L.Fed(tcfg, s, r, rest, alive, now).0, alive, now);
    }
  }

  lemma {:induction false} SpokenUp(ds: seq<Decision>, s: Subject)
    requires forall d :: d in ds && H.Spoken(d, s) ==> d.state == Up
    ensures forall x :: x in L.StatesOf(ds, s) ==> x == Up
  {
    if ds != [] {
      var rest, d := ds[..|ds| - 1], ds[|ds| - 1];
      assert ds == rest + [d] && d in ds;
      SpokenUp(rest, s);
    }
  }

  lemma UpCallStaysWell(tcfg: T.Config, s: Subject, l: L.LifeState, call: T.Call)
    requires NothingAmiss(l.row, l.trace) && forall d :: d in call.decisions && H.Spoken(d, s) ==> d.state == Up
    ensures
      var l' := L.Lived(tcfg, s, l, call);
      NothingAmiss(l'.row, l'.trace)
  {
    var r1 := L.SweptRow(s, l.row, call).0;
    SpokenUp(call.decisions, s);
    UpStaysWell(tcfg, s, r1, L.StatesOf(call.decisions, s), call.alive, call.now);
  }

  lemma PassStaysHealthy(cfg: Config, tcfg: T.Config, c: Check, l: Lone, f: Flash)
    requires Healthy(cfg, c, l)
    requires forall o :: o in f.others ==> o.About() != c.About()
    requires forall d :: d in f.verdicts ==> d.About() != c.About()
    requires RunsNow(cfg, l.pace, c, f.at) ==> f.res.outcome == Passed
    ensures Healthy(cfg, c, Flashed(cfg, tcfg, c, l, f))
  {
    var store := StoreAfter(cfg, c, l, f);
    StoreStaysOwn(cfg, c, l, f);
    WordReplaced(cfg, c, l, f);
    RunTellsOutcome(cfg, l.pace, c, f.res, f.at);
    if Due(cfg, l.pace, c, f.at) && StateOf(f.res.outcome).Some? {
      assert store[OwnKey(cfg, c)] in Word(cfg, c, f.res, f.at);
    }
    StatusIsOwnWord(cfg, c, store, f);
    UpCallStaysWell(tcfg, c.About(), l.life, CallOf(cfg, c, l, f));
  }

  /**
   A healthy check is silent. A lantern that is alone never commits a change of a check that passes whenever it runs,
   and never announces anything about it, whatever the cadence, the alert delay, the warmup and the flashes' spacing.
   */
  lemma {:induction false} PassesNeverPage(cfg: Config, tcfg: T.Config, c: Check, flashes: seq<Flash>)
    requires AllPass(cfg, tcfg, c, flashes)
    ensures forall m :: m in Nights(cfg, tcfg, c, flashes).life.trace && m.Step? ==> !m.committed && m.page == None
    ensures Healthy(cfg, c, Nights(cfg, tcfg, c, flashes))
  {
    if flashes != [] {
      var rest, f := flashes[..|flashes| - 1], flashes[|flashes| - 1];
      PassesNeverPage(cfg, tcfg, c, rest);
      PassStaysHealthy(cfg, tcfg, c, Nights(cfg, tcfg, c, rest), f);
    }
  }
}
