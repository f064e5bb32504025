/**
 internal/lantern/lantern.go, the first half of `flash`: which checks run now, how fast a failing one is
 re-probed, and how long its word lasts. Running a check is an oracle.
 */
module Pacing {
  import opened Base
  import opened Quorum
  import M = Memory
  import T = Tracker
  import L = TrackerLife
  import H = HoldDown

  const RECHECK_WHILE_DOWN: int := 30 * SECOND

  datatype Outcome = Passed | Warning | Failed | NotApplicable

  datatype Result = Result(outcome: Outcome, detail: string, addr: string)

  /** `every` is the cadence of a paced check. */
  datatype Check = Check(name: string, target: Name, every: Option<int>)
  {
    function About(): Subject {
      Subject(name, target)
    }
  }

  datatype Config = Config(id: Name, interval: int, maxAge: int)

  datatype Pace = Pace(lastRun: map<Subject, Time>, lastVerdict: map<Subject, Outcome>, addrs: map<Subject, string>)

  predicate Paced(cfg: Config, c: Check) {
    c.every.Some? && c.every.value > cfg.interval
  }

  function Nominal(cfg: Config, c: Check): int {
    if Paced(cfg, c) then c.every.value else cfg.interval
  }

  predicate LastFailed(p: Pace, s: Subject) {
    s in p.lastVerdict && p.lastVerdict[s] == Failed
  }

  function Every(cfg: Config, p: Pace, c: Check): int {
    if LastFailed(p, c.About()) && Nominal(cfg, c) > RECHECK_WHILE_DOWN then RECHECK_WHILE_DOWN else Nominal(cfg, c)
  }

  /** How long a failing paced check can go without being run. */
  function Gap(cfg: Config, c: Check): int {
    if Nominal(cfg, c) < RECHECK_WHILE_DOWN then Nominal(cfg, c) else RECHECK_WHILE_DOWN
  }

  predicate Due(cfg: Config, p: Pace, c: Check, now: Time) {
    Paced(cfg, c) && c.About() in p.lastRun ==> now - p.lastRun[c.About()] >= Every(cfg, p, c)
  }

  function TtlOf(cfg: Config, c: Check): int {
    if Nominal(cfg, c) > cfg.interval then 5 * Nominal(cfg, c) / SECOND else 3 * cfg.maxAge / SECOND
  }

  function StateOf(o: Outcome): Option<State> {
    match o
    case Passed => Some(Up)
    case Warning => Some(Warn)
    case Failed => Some(Down)
    case NotApplicable => None
  }

  function Word(cfg: Config, c: Check, res: Result, now: Time): seq<Observation> {
    if StateOf(res.outcome).Some?
    then [Observation(cfg.id, c.target, c.name, StateOf(res.outcome).value, res.detail, now, TtlOf(cfg, c))]
    else []
  }

  /** One check in one flash: skipped, or run with the given result. */
  function Probed(cfg: Config, p: Pace, c: Check, res: Result, now: Time): (Pace, seq<Observation>) {
    var s := c.About();
    if !Due(cfg, p, c, now) then (p, [])
    else
      (Pace(if Paced(cfg, c) then p.lastRun[s := now] else p.lastRun,
            if Paced(cfg, c) then p.lastVerdict[s := res.outcome] else p.lastVerdict,
            if res.addr != "" then p.addrs[s := res.addr] else p.addrs),
       Word(cfg, c, res, now))
  }

  function ProbedAll(cfg: Config, p: Pace, checks: seq<Check>, results: seq<Result>, now: Time)
    : (Pace, seq<Observation>)
    requires |results| == |checks|
  {
    if checks == [] then (p, [])
    else
      var n := |checks| - 1;
      var (p1, w1) := ProbedAll(cfg, p, checks[..n], results[..n], now);
      var (p2, w2) := Probed(cfg, p1, checks[n], results[n], now);
      (p2, w1 + w2)
  }

  /** A flash speaks for itself only, and only of the checks it was given. */
  lemma {:induction false} WordsAreOwn(cfg: Config, p: Pace, checks: seq<Check>, results: seq<Result>, now: Time)
    requires |results| == |checks|
    ensures forall o :: o in ProbedAll(cfg, p, checks, results, now).1 ==>
      o.observer == cfg.id && exists c :: c in checks && o.About() == c.About()
  {
    if checks != [] {
      var n := |checks| - 1;
      WordsAreOwn(cfg, p, checks[..n], results[..n], now);
      assert checks[n] in checks;
    }
  }

  /** A paced check ran less than its cadence ago, and less than the re-probe interval ago if it last failed. */
  predicate OnPace(cfg: Config, p: Pace, c: Check, now: Time) {
    Paced(cfg, c) ==>
      && c.About() in p.lastRun
      && now - p.lastRun[c.About()] < Nominal(cfg, c)
      && (LastFailed(p, c.About()) ==> now - p.lastRun[c.About()] < RECHECK_WHILE_DOWN)
  }

  lemma ProbedOnPace(cfg: Config, p: Pace, c: Check, res: Result, now: Time)
    requires cfg.interval > 0
    ensures OnPace(cfg, Probed(cfg, p, c, res, now).0, c, now)
  {
  }

  lemma ProbedStaysOnPace(cfg: Config, p: Pace, c: Check, res: Result, now: Time, d: Check)
    requires cfg.interval > 0 && OnPace(cfg, p, d, now)
    ensures OnPace(cfg, Probed(cfg, p, c, res, now).0, d, now)
  {
  }

  /** After every flash, whatever came before it, every paced check is on pace, one configured twice included. */
  lemma {:induction false} FlashKeepsPace(cfg: Config, p: Pace, checks: seq<Check>, results: seq<Result>, now: Time,
                                          c: Check)
    requires cfg.interval > 0 && |results| == |checks| && c in checks
    ensures OnPace(cfg, ProbedAll(cfg, p, checks, results, now).0, c, now)
  {
    var n := |checks| - 1;
    var p1 := ProbedAll(cfg, p, checks[..n], results[..n], now).0;
    if c == checks[n] {
      ProbedOnPace(cfg, p1, checks[n], results[n], now);
    } else {
      assert checks == checks[..n] + [checks[n]];
      FlashKeepsPace(cfg, p, checks[..n], results[..n], now, c);
      ProbedStaysOnPace(cfg, p1, checks[n], results[n], now, c);
    }
  }

  /** A paced word's TTL outlives the gap to its next run several times over. */
  lemma PacedWordIsLive(cfg: Config, c: Check, o: Observation, now: Time)
    requires Paced(cfg, c) && Nominal(cfg, c) >= SECOND && o.ttl == TtlOf(cfg, c)
    requires now - o.seen <= 4 * Nominal(cfg, c)
    ensures Live(o, cfg.maxAge, now)
  {
    var n := 5 * Nominal(cfg, c);
    assert n / SECOND * SECOND > n - SECOND;
  }

  // ---- A lone lantern and one check ----

  /**
   One flash: the clock, what the check would say if it ran, when the status is read, who seems alive;
   and what the lantern writes and decides about everything else.
   */
  datatype Flash = Flash(at: Time, res: Result, readAt: Time, alive: seq<Name>,
                         others: seq<Observation>, verdicts: seq<Decision>)

  /** `last` and `ranAt` remember the latest run. */
  datatype Lone = Lone(pace: Pace, store: Store, life: L.LifeState, last: Option<Outcome>, ranAt: Time)

  const FIRST_LIGHT: Lone :=
      Lone(Pace(map[], map[], map[]), map[], L.LifeState(ZERO_TIME, T.EMPTY_ROW, []), None, ZERO_TIME)

  function MemoryConfig(cfg: Config): M.Config {
    M.Config(cfg.id, cfg.maxAge, map[], ZERO_TIME)
  }

  function StoreAfter(cfg: Config, c: Check, l: Lone, f: Flash): Store {
    M.Flashed(MemoryConfig(cfg), M.BLANK.(store := l.store), f.others
        + Probed(cfg, l.pace, c, f.res, f.at).1, f.at).store
  }

  /** The one decision the lantern's status holds about the check, if its store holds a word on it. */
  ghost function StatusAfter(cfg: Config, c: Check, store: Store, f: Flash): seq<Decision> {
    if exists k :: k in store && store[k].About() == c.About()
    then [Verdict(c.About(), BallotOf(store, c.About(), cfg.maxAge, f.readAt), 1)]
    else []
  }

  ghost function CallOf(cfg: Config, c: Check, l: Lone, f: Flash): T.Call {
    T.Call(f.verdicts + StatusAfter(cfg, c, StoreAfter(cfg, c, l, f), f), f.alive, f.at)
  }

  ghost function Flashed(cfg: Config, tcfg: T.Config, c: Check, l: Lone, f: Flash): Lone {
    var ran := Due(cfg, l.pace, c, f.at);
    Lone(Probed(cfg, l.pace, c, f.res, f.at).0, StoreAfter(cfg, c, l, f),
         L.Lived(tcfg, c.About(), l.life, CallOf(cfg, c, l, f)),
         if ran then Some(f.res.outcome) else l.last,
         if ran then f.at else l.ranAt)
  }

  ghost function Nights(cfg: Config, tcfg: T.Config, c: Check, flashes: seq<Flash>): Lone {
    if flashes == [] then FIRST_LIGHT
    else Flashed(cfg, tcfg, c, Nights(cfg, tcfg, c, flashes[..|flashes| - 1]), flashes[|flashes| - 1])
  }

  /** A failed run is followed by one that passes or warns, and a fresh word is read before it expires. */
  ghost predicate Isolated(cfg: Config, c: Check, l: Lone, f: Flash) {
    && ZERO_TIME < f.at
    && (forall o :: o in f.others ==> o.About() != c.About())
    && (forall d :: d in f.verdicts ==> d.About() != c.About())
    && (Due(cfg, l.pace, c, f.at) && l.last == Some(Failed) ==> f.res.outcome == Passed || f.res.outcome == Warning)
    && (Due(cfg, l.pace, c, f.at) ==> forall o :: o in Word(cfg, c, f.res, f.at) ==> Live(o, cfg.maxAge, f.readAt))
  }

  function LastClock(flashes: seq<Flash>): Time {
    if flashes == [] then ZERO_TIME else flashes[|flashes| - 1].at
  }

  /** Every flash comes no earlier than the one before, and finds the failures isolated. */
  ghost predicate AllIsolated(cfg: Config, tcfg: T.Config, c: Check, flashes: seq<Flash>) {
    flashes != [] ==>
      var rest, f := flashes[..|flashes| - 1], flashes[|flashes| - 1];
      AllIsolated(cfg, tcfg, c, rest) && LastClock(rest) <= f.at && Isolated(cfg, c, Nights(cfg, tcfg, c, rest), f)
  }

  function OwnKey(cfg: Config, c: Check): Key {
    Key(cfg.id, c.name, c.target)
  }

  predicate OwnOnly(cfg: Config, c: Check, store: Store) {
    forall k :: k in store && store[k].About() == c.About() ==> k == OwnKey(cfg, c)
  }

  /** The store knows the check only by this lantern's own word, and a Down there is the last run's. */
  ghost predicate HoldsOwnWord(cfg: Config, c: Check, l: Lone) {
    && WellKeyed(l.store)
    && OwnOnly(cfg, c, l.store)
    && (OwnKey(cfg, c) in l.store && l.store[OwnKey(cfg, c)].state == Down ==> l.last == Some(Failed))
  }

  ghost predicate RemembersRun(cfg: Config, c: Check, l: Lone) {
    Paced(cfg, c) && l.last.Some? ==>
      && c.About() in l.pace.lastRun && l.pace.lastRun[c.About()] == l.ranAt
      && c.About() in l.pace.lastVerdict && l.pace.lastVerdict[c.About()] == l.last.value
  }

  ghost predicate Patient(cfg: Config, tcfg: T.Config, l: Lone, clock: Time) {
    && l.ranAt <= clock && l.life.row.Committed() != Down
    && (l.life.row.Since() != ZERO_TIME ==>
          l.last == Some(Failed) && l.ranAt <= l.life.row.Since()
          && l.life.start != ZERO_TIME && clock - l.life.start >= tcfg.warmup)
  }

  /** A run that says something replaces the word held; otherwise the store only loses. */
  lemma WordReplaced(cfg: Config, c: Check, l: Lone, f: Flash)
    requires forall o :: o in f.others ==> o.About() != c.About()
    ensures
      var store := StoreAfter(cfg, c, l, f);
      var k := OwnKey(cfg, c);
      if Due(cfg, l.pace, c, f.at) && StateOf(f.res.outcome).Some?
      then k in store && [store[k]] == Word(cfg, c, f.res, f.at)
      else k in store ==> k in l.store && store[k] == l.store[k]
  {
    var k, word := OwnKey(cfg, c), Probed(cfg, l.pace, c, f.res, f.at).1;
    forall o | o in f.others ensures KeyOf(o) != k {
      assert KeyOf(o) == k ==> o.About() == c.About();
    }
    M.WrittenElsewhere(l.store, f.others, k);
    if word == [] {
      assert f.others + word == f.others;
    } else {
      assert (f.others + word)[..|f.others|] == f.others;
    }
  }

  lemma StoreStaysOwn(cfg: Config, c: Check, l: Lone, f: Flash)
    requires WellKeyed(l.store) && OwnOnly(cfg, c, l.store) && forall o :: o in f.others ==> o.About() != c.About()
    ensures WellKeyed(StoreAfter(cfg, c, l, f)) && OwnOnly(cfg, c, StoreAfter(cfg, c, l, f))
  {
    var word := Probed(cfg, l.pace, c, f.res, f.at).1;
    assert forall o :: o in f.others + word ==> o in f.others || o in word;
    M.WrittenHas(l.store, f.others + word);
  }

  lemma StoreKeepsOwnWord(cfg: Config, tcfg: T.Config, c: Check, l: Lone, f: Flash)
    requires HoldsOwnWord(cfg, c, l) && Isolated(cfg, c, l, f)
    ensures HoldsOwnWord(cfg, c, Flashed(cfg, tcfg, c, l, f))
  {
    StoreStaysOwn(cfg, c, l, f);
    WordReplaced(cfg, c, l, f);
  }

  lemma LoneVerdict(s: Subject, id: Name, o: Observation)
    ensures Verdict(s, map[id := o], 1).state == o.state && Verdict(s, map[id := o], 1).voters == 1
  {
    var b: Ballot := map[id := o];
    if o.state == Down {
      assert Downs(b) == {id};
    } else if o.state == Warn {
      assert Downs(b) == {} && Complaints(b) == {id};
    } else {
      assert Downs(b) == {} && Complaints(b) == {};
    }
  }

  /** Whoever speaks about the check is the lantern itself, and it says what it holds. */
  lemma StatusIsOwnWord(cfg: Config, c: Check, store: Store, f: Flash)
    requires WellKeyed(store) && OwnOnly(cfg, c, store)
    ensures forall d :: d in StatusAfter(cfg, c, store, f) && H.Spoken(d, c.About()) ==>
      OwnKey(cfg, c) in store && Live(store[OwnKey(cfg, c)], cfg.maxAge, f.readAt)
          && d.state == store[OwnKey(cfg, c)].state
    ensures OwnKey(cfg, c) in store && Live(store[OwnKey(cfg, c)], cfg.maxAge, f.readAt) ==>
      exists d :: d in StatusAfter(cfg, c, store, f) && H.Spoken(d, c.About()) && d.state == store[OwnKey(cfg, c)].state
  {
    var s, k := c.About(), OwnKey(cfg, c);
    var b := BallotOf(store, s, cfg.maxAge, f.readAt);
    if k in store && Live(store[k], cfg.maxAge, f.readAt) {
      assert store[k].About() == s;
      assert b == map[cfg.id := store[k]];
      LoneVerdict(s, cfg.id, store[k]);
      var d := Verdict(s, b, 1);
      assert d in StatusAfter(cfg, c, store, f) && H.Spoken(d, s);
    } else {
      assert b == map[];
    }
  }

  lemma HeldWordIsStatus(cfg: Config, c: Check, store: Store, f: Flash)
    requires WellKeyed(store) && OwnOnly(cfg, c, store)
    requires OwnKey(cfg, c) in store && Live(store[OwnKey(cfg, c)], cfg.maxAge, f.readAt)
    ensures
      var ds := StatusAfter(cfg, c, store, f);
      |ds| == 1 && H.Spoken(ds[0], c.About()) && ds[0].state == store[OwnKey(cfg, c)].state
  {
    StatusIsOwnWord(cfg, c, store, f);
    var d :| d in StatusAfter(cfg, c, store, f) && H.Spoken(d, c.About()) && d.state == store[OwnKey(cfg, c)].state;
  }

  /** The alert delay is at least as long as a failing check can go without a run. */
  predicate Spans(cfg: Config, tcfg: T.Config, c: Check) {
    tcfg.holdDown > 0 && (Paced(cfg, c) ==> tcfg.holdDown >= Gap(cfg, c))
  }

  /** A flash that does not run the check of a failed run comes within the re-probe interval. */
  lemma NotDueIsSoon(cfg: Config, c: Check, l: Lone, f: Flash)
    requires RemembersRun(cfg, c, l) && l.last == Some(Failed) && !Due(cfg, l.pace, c, f.at)
    ensures Paced(cfg, c) && f.at - l.ranAt < Gap(cfg, c)
  {
  }

  /** If the status still calls the check down after this flash, its latest run failed. */
  lemma CalledDownMeansFailed(cfg: Config, tcfg: T.Config, c: Check, l: Lone, f: Flash)
    requires HoldsOwnWord(cfg, c, l) && Isolated(cfg, c, l, f)
    ensures H.CalledDown(CallOf(cfg, c, l, f), c.About()) ==> Flashed(cfg, tcfg, c, l, f).last == Some(Failed)
  {
    StoreKeepsOwnWord(cfg, tcfg, c, l, f);
    StatusIsOwnWord(cfg, c, StoreAfter(cfg, c, l, f), f);
    if H.CalledDown(CallOf(cfg, c, l, f), c.About()) {
      var d :| d in CallOf(cfg, c, l, f).decisions && H.Spoken(d, c.About()) && d.state == Down;
      assert d in StatusAfter(cfg, c, StoreAfter(cfg, c, l, f), f);
    }
  }

  /** A run that passes or warns is spoken about at once, so somebody no longer calls the check down. */
  lemma GoodRunIsHeard(cfg: Config, tcfg: T.Config, c: Check, l: Lone, f: Flash)
    requires HoldsOwnWord(cfg, c, l) && Isolated(cfg, c, l, f)
    requires Due(cfg, l.pace, c, f.at) && (f.res.outcome == Passed || f.res.outcome == Warning)
    ensures !H.OnlyDown(CallOf(cfg, c, l, f), c.About())
  {
    StoreKeepsOwnWord(cfg, tcfg, c, l, f);
    WordReplaced(cfg, c, l, f);
    var store := StoreAfter(cfg, c, l, f);
    assert store[OwnKey(cfg, c)] in Word(cfg, c, f.res, f.at);
    StatusIsOwnWord(cfg, c, store, f);
    var d :| d in StatusAfter(cfg, c, store, f) && H.Spoken(d, c.About()) && d.state == store[OwnKey(cfg, c)].state;
    assert d in CallOf(cfg, c, l, f).decisions;
  }

  /** What one judged flash does to the hold-down clock: it runs only behind a failed run, and never runs out. */
  lemma ClockRunsBehindFailure(cfg: Config, tcfg: T.Config, c: Check, l: Lone, f: Flash, clock: Time)
    requires Spans(cfg, tcfg, c) && clock <= f.at && Isolated(cfg, c, l, f)
    requires HoldsOwnWord(cfg, c, l) && RemembersRun(cfg, c, l) && Patient(cfg, tcfg, l, clock)
    ensures
      var call, row := CallOf(cfg, c, l, f), l.life.row;
      var row' := L.Feed(tcfg, c.About(), L.SweptRow(c.About(), row, call).0, call.decisions, call.alive, call.now).0;
      var l' := Flashed(cfg, tcfg, c, l, f);
      && row'.Committed() != Down
      && (row'.Since() != ZERO_TIME ==> l'.last == Some(Failed) && l'.ranAt <= row'.Since())
  {
    var call, row := CallOf(cfg, c, l, f), l.life.row;
    H.CallOnRow(tcfg, c.About(), row, call);
    CalledDownMeansFailed(cfg, tcfg, c, l, f);
    if Due(cfg, l.pace, c, f.at) {
      if f.res.outcome == Passed || f.res.outcome == Warning {
        GoodRunIsHeard(cfg, tcfg, c, l, f);
      } else {
        assert l.last != Some(Failed) && row.Since() == ZERO_TIME;
      }
    } else if l.last == Some(Failed) {
      NotDueIsSoon(cfg, c, l, f);
    }
  }

  /** What a lone lantern keeps while its failures stay isolated. */
  ghost predicate Calm(cfg: Config, tcfg: T.Config, c: Check, l: Lone, clock: Time) {
    HoldsOwnWord(cfg, c, l) && RemembersRun(cfg, c, l) && Patient(cfg, tcfg, l, clock)
  }

  lemma FlashStaysCalm(cfg: Config, tcfg: T.Config, c: Check, l: Lone, f: Flash, clock: Time)
    requires Spans(cfg, tcfg, c) && clock <= f.at && Isolated(cfg, c, l, f) && Calm(cfg, tcfg, c, l, clock)
    ensures Calm(cfg, tcfg, c, Flashed(cfg, tcfg, c, l, f), f.at)
  {
    StoreKeepsOwnWord(cfg, tcfg, c, l, f);
    ClockRunsBehindFailure(cfg, tcfg, c, l, f, clock);
  }

  lemma {:induction false} NightsStayCalm(cfg: Config, tcfg: T.Config, c: Check, flashes: seq<Flash>)
    requires Spans(cfg, tcfg, c) && AllIsolated(cfg, tcfg, c, flashes)
    ensures Calm(cfg, tcfg, c, Nights(cfg, tcfg, c, flashes), LastClock(flashes))
  {
    if flashes != [] {
      var rest, f := flashes[..|flashes| - 1], flashes[|flashes| - 1];
      NightsStayCalm(cfg, tcfg, c, rest);
      FlashStaysCalm(cfg, tcfg, c, Nights(cfg, tcfg, c, rest), f, LastClock(rest));
    }
  }

  /**
   Isolated failures never page: a lantern that is alone, with an alert delay as long as a failing check can
   go without a run (thirty seconds always suffice), never commits a check Down if every failed run is
   followed by one that passes or warns, whatever the spacing of its flashes.
   */
  lemma IsolatedFailuresNeverPage(cfg: Config, tcfg: T.Config, c: Check, flashes: seq<Flash>)
    requires Spans(cfg, tcfg, c) && AllIsolated(cfg, tcfg, c, flashes)
    ensures Nights(cfg, tcfg, c, flashes).life.row.Committed() != Down
  {
    NightsStayCalm(cfg, tcfg, c, flashes);
  }

  // ---- The bound is exact ----

  function Passing(at: Time): Flash {
    Flash(at, Result(Passed, "", ""), at, [], [], [])
  }

  function Blip(at: Time): Flash {
    Flash(at, Result(Failed, "", ""), at, [], [], [])
  }

  /** What a judged Down makes of a row: with no delay it commits, with one it starts or goes by the clock. */
  predicate Answers(tcfg: T.Config, r: T.Row, now: Time, r': T.Row) {
    && (tcfg.holdDown <= 0 ==> r'.Committed() == Down)
    && (tcfg.holdDown > 0 && r.Committed() != Down ==>
          && (r'.Committed() == Down <==> now - T.DownStart(r, now) >= tcfg.holdDown)
          && (r'.Committed() != Down ==> r'.Since() == T.DownStart(r, now)))
  }

  lemma DownIsJudged(tcfg: T.Config, s: Subject, r: T.Row, call: T.Call, d: Decision)
    requires ZERO_TIME < call.now && call.decisions == [d] && H.Spoken(d, s) && d.state == Down
    ensures
      var r' := L.Feed(tcfg, s, L.SweptRow(s, r, call).0, call.decisions, call.alive, call.now).0;
      Answers(tcfg, r, call.now, r')
  {
    H.NamedIn(call.decisions, d, s);
    H.SweepHolds(s, r, call);
    var r1 := L.SweptRow(s, r, call).0;
    H.SoleDecision(tcfg, s, r1, call.decisions, d, call.alive, call.now);
    if tcfg.holdDown > 0 {
      H.StepHolds(tcfg, s, r1, Down, call.alive, call.now);
    } else {
      H.InstantStep(tcfg, s, r1, Down, call.alive, call.now);
    }
  }

  /** A judged flash at which the lantern holds its own live Down advances the row by exactly that. */
  lemma HeldDownIsJudged(cfg: Config, tcfg: T.Config, c: Check, l: Lone, f: Flash)
    requires f.others == [] && f.verdicts == [] && ZERO_TIME < f.at
    requires HoldsOwnWord(cfg, c, l)
    requires
      var store, k := StoreAfter(cfg, c, l, f), OwnKey(cfg, c);
      k in store && Live(store[k], cfg.maxAge, f.readAt) && store[k].state == Down
    requires l.life.start != ZERO_TIME && f.at - l.life.start >= tcfg.warmup
    ensures Answers(tcfg, l.life.row, f.at, Flashed(cfg, tcfg, c, l, f).life.row)
  {
    var s, call := c.About(), CallOf(cfg, c, l, f);
    StoreStaysOwn(cfg, c, l, f);
    HeldWordIsStatus(cfg, c, StoreAfter(cfg, c, l, f), f);
    var d := StatusAfter(cfg, c, StoreAfter(cfg, c, l, f), f)[0];
    assert call.decisions == [d];
    DownIsJudged(tcfg, s, l.life.row, call, d);
  }

  lemma HeldThroughPrune(cfg: Config, c: Check, l: Lone, f: Flash)
    requires f.others == [] && !Due(cfg, l.pace, c, f.at)
    requires OwnKey(cfg, c) in l.store && f.at - l.store[OwnKey(cfg, c)].seen <= HOUR
    ensures OwnKey(cfg, c) in StoreAfter(cfg, c, l, f)
        && StoreAfter(cfg, c, l, f)[OwnKey(cfg, c)] == l.store[OwnKey(cfg, c)]
  {
    assert f.others + Probed(cfg, l.pace, c, f.res, f.at).1 == [];
  }

  lemma FreshRunIsIsolated(cfg: Config, c: Check, l: Lone, f: Flash)
    requires Paced(cfg, c) && Nominal(cfg, c) >= SECOND && l.last != Some(Failed)
    requires ZERO_TIME < f.at == f.readAt && f.others == [] && f.verdicts == []
    ensures Isolated(cfg, c, l, f)
  {
    forall o | o in Word(cfg, c, f.res, f.at) ensures Live(o, cfg.maxAge, f.readAt) {
      PacedWordIsLive(cfg, c, o, f.readAt);
    }
  }

  /** A check has just passed: the lantern remembers that, its watch has begun, and nothing is held against it. */
  ghost predicate Quiet(cfg: Config, tcfg: T.Config, c: Check, l: Lone) {
    && HoldsOwnWord(cfg, c, l) && RemembersRun(cfg, c, l) && l.last == Some(Passed) && l.ranAt == 1
    && l.life.start == 1
    && (tcfg.holdDown > 0 ==> l.life.row.Committed() != Down && l.life.row.Since() == ZERO_TIME)
  }

  lemma FirstPass(cfg: Config, tcfg: T.Config, c: Check)
    requires Paced(cfg, c) && Nominal(cfg, c) >= SECOND
    ensures Isolated(cfg, c, FIRST_LIGHT, Passing(1))
    ensures Quiet(cfg, tcfg, c, Flashed(cfg, tcfg, c, FIRST_LIGHT, Passing(1)))
  {
    var f := Passing(1);
    FreshRunIsIsolated(cfg, c, FIRST_LIGHT, f);
    StoreKeepsOwnWord(cfg, tcfg, c, FIRST_LIGHT, f);
    GoodRunIsHeard(cfg, tcfg, c, FIRST_LIGHT, f);
    if tcfg.holdDown > 0 {
      H.CallOnRow(tcfg, c.About(), T.EMPTY_ROW, CallOf(cfg, c, FIRST_LIGHT, f));
    }
  }

  /** The check has just failed, for the first time, at `t`. */
  ghost predicate Failing(cfg: Config, tcfg: T.Config, c: Check, l: Lone, t: Time) {
    && HoldsOwnWord(cfg, c, l) && RemembersRun(cfg, c, l) && l.last == Some(Failed) && l.ranAt == t
    && OwnKey(cfg, c) in l.store && [l.store[OwnKey(cfg, c)]] == Word(cfg, c, Blip(t).res, t)
    && l.life.start == 1 && (tcfg.holdDown > 0 ==> l.life.row.Committed() != Down && l.life.row.Since() == t)
  }

  lemma BlipIsWritten(cfg: Config, tcfg: T.Config, c: Check, l: Lone, t: Time)
    requires HoldsOwnWord(cfg, c, l) && RemembersRun(cfg, c, l) && Isolated(cfg, c, l, Blip(t))
    requires Due(cfg, l.pace, c, t)
    ensures
      var l', k := Flashed(cfg, tcfg, c, l, Blip(t)), OwnKey(cfg, c);
      && HoldsOwnWord(cfg, c, l') && RemembersRun(cfg, c, l') && l'.last == Some(Failed) && l'.ranAt == t
      && k in l'.store && [l'.store[k]] == Word(cfg, c, Blip(t).res, t)
  {
    StoreKeepsOwnWord(cfg, tcfg, c, l, Blip(t));
    WordReplaced(cfg, c, l, Blip(t));
  }

  lemma ThenABlip(cfg: Config, tcfg: T.Config, c: Check, l: Lone, t: Time)
    requires Paced(cfg, c) && Nominal(cfg, c) >= SECOND && Quiet(cfg, tcfg, c, l)
    requires t - 1 >= Nominal(cfg, c) && t - 1 >= tcfg.warmup
    ensures Isolated(cfg, c, l, Blip(t)) && Failing(cfg, tcfg, c, Flashed(cfg, tcfg, c, l, Blip(t)), t)
  {
    var f := Blip(t);
    FreshRunIsIsolated(cfg, c, l, f);
    BlipIsWritten(cfg, tcfg, c, l, t);
    var o := StoreAfter(cfg, c, l, f)[OwnKey(cfg, c)];
    assert o in Word(cfg, c, f.res, t);
    HeldDownIsJudged(cfg, tcfg, c, l, f);
  }

  lemma ThenThePage(cfg: Config, tcfg: T.Config, c: Check, l: Lone, t: Time)
    requires Paced(cfg, c) && Nominal(cfg, c) >= SECOND && ZERO_TIME < t && Failing(cfg, tcfg, c, l, t)
    requires tcfg.holdDown < Gap(cfg, c) && t - 1 >= tcfg.warmup
    ensures Isolated(cfg, c, l, Blip(t + Max(tcfg.holdDown, 0)))
    ensures Flashed(cfg, tcfg, c, l, Blip(t + Max(tcfg.holdDown, 0))).life.row.Committed() == Down
  {
    var f, o := Blip(t + Max(tcfg.holdDown, 0)), l.store[OwnKey(cfg, c)];
    assert o in Word(cfg, c, Blip(t).res, t);
    PacedWordIsLive(cfg, c, o, f.at);
    HeldThroughPrune(cfg, c, l, f);
    HeldDownIsJudged(cfg, tcfg, c, l, f);
  }

  /** Over the first `i` flashes failures were isolated, and this is where they left the lantern. */
  ghost predicate Reached(cfg: Config, tcfg: T.Config, c: Check, flashes: seq<Flash>, i: nat, l: Lone)
    requires i <= |flashes|
  {
    && AllIsolated(cfg, tcfg, c, flashes[..i]) && l == Nights(cfg, tcfg, c, flashes[..i])
    && LastClock(flashes[..i]) == if i == 0 then ZERO_TIME else flashes[i - 1].at
  }

  lemma OneMoreNight(cfg: Config, tcfg: T.Config, c: Check, flashes: seq<Flash>, i: nat, l: Lone)
    requires i < |flashes| && Reached(cfg, tcfg, c, flashes, i, l) && Isolated(cfg, c, l, flashes[i])
    requires (if i == 0 then ZERO_TIME else flashes[i - 1].at) <= flashes[i].at
    ensures Reached(cfg, tcfg, c, flashes, i + 1, Flashed(cfg, tcfg, c, l, flashes[i]))
  {
    var some := flashes[..i + 1];
    assert some[..i] == flashes[..i] && some[|some| - 1] == flashes[i];
  }

  lemma TwoFlashes(cfg: Config, tcfg: T.Config, c: Check, flashes: seq<Flash>, l: Lone)
    requires |flashes| >= 2 && ZERO_TIME <= flashes[0].at <= flashes[1].at
    requires Isolated(cfg, c, FIRST_LIGHT, flashes[0]) && l == Flashed(cfg, tcfg, c, FIRST_LIGHT, flashes[0])
    requires Isolated(cfg, c, l, flashes[1])
    ensures Reached(cfg, tcfg, c, flashes, 2, Flashed(cfg, tcfg, c, l, flashes[1]))
  {
    OneMoreNight(cfg, tcfg, c, flashes, 0, FIRST_LIGHT);
    OneMoreNight(cfg, tcfg, c, flashes, 1, l);
  }

  lemma ThenAThird(cfg: Config, tcfg: T.Config, c: Check, flashes: seq<Flash>, l: Lone)
    requires |flashes| == 3 && Reached(cfg, tcfg, c, flashes, 2, l) && Isolated(cfg, c, l, flashes[2])
    requires flashes[1].at <= flashes[2].at
    ensures AllIsolated(cfg, tcfg, c, flashes)
    ensures Nights(cfg, tcfg, c, flashes) == Flashed(cfg, tcfg, c, l, flashes[2])
  {
    OneMoreNight(cfg, tcfg, c, flashes, 2, l);
    assert flashes[..3] == flashes;
  }

  /** The check passes, fails once when it is next run after the warmup, and the flash after that pages. */
  function OneBlip(cfg: Config, tcfg: T.Config, c: Check): seq<Flash> {
    var t := 1 + Max(Nominal(cfg, c), tcfg.warmup);
    [Passing(1), Blip(t), Blip(t + Max(tcfg.holdDown, 0))]
  }

  lemma BlipPages(cfg: Config, tcfg: T.Config, c: Check, flashes: seq<Flash>, t: Time)
    requires Paced(cfg, c) && Nominal(cfg, c) >= SECOND && tcfg.holdDown < Gap(cfg, c)
    requires t - 1 >= Nominal(cfg, c) && t - 1 >= tcfg.warmup
    requires |flashes| == 3 && flashes[0] == Passing(1)
    requires flashes[1] == Blip(t) && flashes[2] == Blip(t + Max(tcfg.holdDown, 0))
    ensures AllIsolated(cfg, tcfg, c, flashes) && Nights(cfg, tcfg, c, flashes).life.row.Committed() == Down
  {
    var l1 := Flashed(cfg, tcfg, c, FIRST_LIGHT, flashes[0]);
    var l2 := Flashed(cfg, tcfg, c, l1, flashes[1]);
    FirstPass(cfg, tcfg, c);
    ThenABlip(cfg, tcfg, c, l1, t);
    ThenThePage(cfg, tcfg, c, l2, t);
    TwoFlashes(cfg, tcfg, c, flashes, l1);
    ThenAThird(cfg, tcfg, c, flashes, l2);
  }

  /** With a shorter delay, or none, a single failed run does page: nothing newer can arrive in time. */
  lemma ShortDelayPagesABlip(cfg: Config, tcfg: T.Config, c: Check)
    requires Paced(cfg, c) && Nominal(cfg, c) >= SECOND && tcfg.holdDown < Gap(cfg, c)
    ensures AllIsolated(cfg, tcfg, c, OneBlip(cfg, tcfg, c))
    ensures Nights(cfg, tcfg, c, OneBlip(cfg, tcfg, c)).life.row.Committed() == Down
  {
    BlipPages(cfg, tcfg, c, OneBlip(cfg, tcfg, c), 1 + Max(Nominal(cfg, c), tcfg.warmup));
  }

  /** The alert delay filters isolated failures exactly when it spans the gap between two runs of a failing check. */
  lemma BlipsAreFilteredIff(cfg: Config, tcfg: T.Config, c: Check)
    requires Paced(cfg, c) && Nominal(cfg, c) >= SECOND
    ensures (forall flashes :: AllIsolated(cfg, tcfg, c, flashes) ==>
               Nights(cfg, tcfg, c, flashes).life.row.Committed() != Down)
            <==> tcfg.holdDown >= Gap(cfg, c)
  {
    if tcfg.holdDown >= Gap(cfg, c) {
      forall flashes | AllIsolated(cfg, tcfg, c, flashes)
          ensures Nights(cfg, tcfg, c, flashes).life.row.Committed() != Down {
        IsolatedFailuresNeverPage(cfg, tcfg, c, flashes);
      }
    } else {
      ShortDelayPagesABlip(cfg, tcfg, c);
    }
  }
}
