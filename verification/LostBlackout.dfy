/**
 The input on which a blackout is lost: two lanterns watch two services on one host and both see them down; only
 the first has ever reached the host, and the second is elected. Everything is written out, for any warmup and
 any alert delay.
 */
module LostBlackout {
  import opened Base
  import opened Quorum
  import opened Alarms
  import opened Books
  import opened Fleet
  import opened HoldDown
  import Blackout
  import E = Election
  import L = TrackerLife
  import Paging
  import Status
  import T = Tracker

  /** The lanterns, the services, the host's address and the aging window. */
  datatype Scene = Scene(a: Name, b: Name, web: Subject, mail: Subject, host: string, maxAge: int)

  ghost predicate Staged(cfg: T.Config, x: Scene) {
    && x.a != x.b && x.a != "" && x.b != "" && x.host != "" && x.maxAge > 0
    && x.web.target !in {x.a, x.b} && x.mail.target !in {x.a, x.b}
    && x.web.check != "blackout" && x.mail.check != "blackout"
    && Status.Precedes(x.web, x.mail) && Blackout.SiteOf(x.web.target) != Blackout.SiteOf(x.mail.target)
    && cfg.score(x.b, Alarm(x.host)) > cfg.score(x.a, Alarm(x.host))
  }

  function PreferB(n: Name, s: Subject): int {
    if n == "b" then 1 else 0
  }

  /** Such scenes exist for every warmup and delay. */
  lemma SceneExists(warmup: int, holdDown: int)
    ensures Staged(T.Config(warmup, holdDown, PreferB),
                   Scene("a", "b", Subject("tcp", "p"), Subject("tcp", "q"), "h", 10 * SECOND))
  {
    assert Before("p", "q");
    assert Blackout.UpToSlash("p") == "p" && Blackout.UpToSlash("q") == "q";
  }

  // ---- One flash ----

  function DownOn(o: Name, s: Subject, at: Time): Observation {
    Observation(o, s.target, s.check, Down, "", at, 0)
  }

  function KeyFor(o: Name, s: Subject): Key {
    Key(o, s.check, s.target)
  }

  /** What a lantern reads at a flash at `at`: both have just found both services down, and both are on the roster. */
  ghost predicate BothFoundDown(x: Scene, r: Reading, at: Time) {
    && r.store == map[KeyFor(x.a, x.web) := DownOn(x.a, x.web, at), KeyFor(x.a, x.mail) := DownOn(x.a, x.mail, at),
                      KeyFor(x.b, x.web) := DownOn(x.b, x.web, at), KeyFor(x.b, x.mail) := DownOn(x.b, x.mail, at)]
    && r.lastKnown == 2 && r.maxAge == x.maxAge && r.at == at
  }

  lemma SubjectsHeld(x: Scene, r: Reading, at: Time)
    requires BothFoundDown(x, r, at)
    ensures Status.SubjectsOf(r.store) == {x.web, x.mail}
  {
    assert KeyFor(x.a, x.web) in r.store && KeyFor(x.a, x.mail) in r.store;
    assert r.store[KeyFor(x.a, x.web)].About() == x.web && r.store[KeyFor(x.a, x.mail)].About() == x.mail;
  }

  lemma PairBallot(r: Reading, s: Subject, a: Name, b: Name, oa: Observation, ob: Observation)
    requires KeyFor(a, s) in r.store && r.store[KeyFor(a, s)] == oa && Counts(oa, s, r.maxAge, r.at)
    requires KeyFor(b, s) in r.store && r.store[KeyFor(b, s)] == ob && Counts(ob, s, r.maxAge, r.at)
    requires forall n :: KeyFor(n, s) in r.store ==> n == a || n == b
    ensures BallotAt(r, s).Keys == {a, b} && BallotAt(r, s)[a] == oa && BallotAt(r, s)[b] == ob
  {
    assert a in BallotAt(r, s) && b in BallotAt(r, s);
    forall n | n in BallotAt(r, s) ensures n == a || n == b {
      assert KeyFor(n, s) in r.store;
    }
  }

  lemma BothBallots(x: Scene, r: Reading, s: Subject, at: Time)
    requires BothFoundDown(x, r, at) && x.a != x.b && x.web != x.mail && x.maxAge > 0 && (s == x.web || s == x.mail)
    ensures BallotAt(r, s).Keys == {x.a, x.b}
    ensures BallotAt(r, s)[x.a].state == Down && BallotAt(r, s)[x.b].state == Down
  {
    assert KeyFor(x.a, s) in r.store && r.store[KeyFor(x.a, s)] == DownOn(x.a, s, at);
    assert KeyFor(x.b, s) in r.store && r.store[KeyFor(x.b, s)] == DownOn(x.b, s, at);
    PairBallot(r, s, x.a, x.b, DownOn(x.a, s, at), DownOn(x.b, s, at));
  }

  lemma TwoDownsConvict(s: Subject, b: Ballot, x: Name, y: Name)
    requires b.Keys == {x, y} && x != y && s.target !in {x, y} && b[x].state == Down && b[y].state == Down
    ensures Verdict(s, b, 2).state == Down
  {
    assert Downs(b) == {x, y};
    VerdictMeansMajority(s, b, 2);
  }

  lemma VerdictIsDown(r: Reading, s: Subject, a: Name, b: Name) returns (d: Decision)
    requires BallotAt(r, s).Keys == {a, b} && a != b && s.target !in {a, b} && r.lastKnown == 2
    requires BallotAt(r, s)[a].state == Down && BallotAt(r, s)[b].state == Down
    ensures Status.IsVerdict(d, s, r) && d.state == Down && d.About() == s
  {
    d := Verdict(s, BallotAt(r, s), r.lastKnown);
    TwoDownsConvict(s, BallotAt(r, s), a, b);
    Status.VerdictIsAbout(s, BallotAt(r, s), r.lastKnown);
  }

  lemma PanelOfTwo(r: Reading, d: Decision, e: Decision, s: Subject, t: Subject)
    requires Status.SubjectsOf(r.store) == {s, t} && Status.Precedes(s, t)
    requires Status.IsVerdict(d, s, r) && Status.IsVerdict(e, t, r)
    ensures Status.Panel([d, e], r)
  {
    var ss, ds := [s, t], [d, e];
    assert Elements(ss) == {s, t};
    assert Status.InPanelOrder(ss);
    assert Status.Verdicts(ds, ss, r);
  }

  predicate TwoDown(x: Scene, panel: seq<Decision>) {
    && |panel| == 2 && panel[0].About() == x.web && panel[1].About() == x.mail
    && panel[0].state == Down && panel[1].state == Down
  }

  /** The panel of that reading. */
  lemma PanelExists(cfg: T.Config, x: Scene, r: Reading, at: Time) returns (panel: seq<Decision>)
    requires Staged(cfg, x) && BothFoundDown(x, r, at)
    ensures Status.Panel(panel, r) && TwoDown(x, panel)
  {
    Status.PrecedesOneWay(x.web, x.mail);
    BothBallots(x, r, x.web, at);
    BothBallots(x, r, x.mail, at);
    var d := VerdictIsDown(r, x.web, x.a, x.b);
    var e := VerdictIsDown(r, x.mail, x.a, x.b);
    SubjectsHeld(x, r, at);
    PanelOfTwo(r, d, e, x.web, x.mail);
    panel := [d, e];
  }

  function FullBook(x: Scene): Blackout.Addresses {
    map[x.web := x.host, x.mail := x.host]
  }

  lemma SiteIsThere(panel: seq<Decision>, book: Blackout.Addresses, addr: string, i: nat)
    requires i in Blackout.Members(panel, book, addr)
    ensures Blackout.SiteOf(panel[i].target) in Blackout.Sites(panel, book, addr)
  {
  }

  lemma TwoAtHost(x: Scene, panel: seq<Decision>)
    requires TwoDown(x, panel) && x.host != ""
    ensures Blackout.Members(panel, FullBook(x), x.host) == {0, 1}
    ensures forall a :: a != x.host ==> Blackout.Members(panel, FullBook(x), a) == {}
  {
  }

  lemma TwoSites(sites: set<string>, p: string, q: string)
    requires p in sites && q in sites && p != q
    ensures |sites| >= 2
  {
    SubsetSize({p, q}, sites);
  }

  lemma HostIsCapable(x: Scene, panel: seq<Decision>)
    requires TwoDown(x, panel) && x.host != "" && Blackout.SiteOf(x.web.target) != Blackout.SiteOf(x.mail.target)
    ensures Blackout.Capable(panel, FullBook(x), 2, x.host)
  {
    var sites := Blackout.Sites(panel, FullBook(x), x.host);
    TwoAtHost(x, panel);
    SiteIsThere(panel, FullBook(x), x.host, 0);
    SiteIsThere(panel, FullBook(x), x.host, 1);
    assert panel[0].target == panel[0].About().target && panel[1].target == panel[1].About().target;
    TwoSites(sites, Blackout.SiteOf(panel[0].target), Blackout.SiteOf(panel[1].target));
    assert |{0, 1}| == 2;
  }

  lemma OneBlackout(x: Scene, panel: seq<Decision>)
    requires TwoDown(x, panel) && x.host != "" && Blackout.Capable(panel, FullBook(x), 2, x.host)
    ensures Blackout.Dark(panel, FullBook(x), x.host)
    ensures Blackout.BlackoutsOf([Blackout.GroupDecision(panel, FullBook(x), 2, x.host)], panel, FullBook(x), 2)
  {
    TwoAtHost(x, panel);
  }

  lemma NobodyListed(panel: seq<Decision>)
    ensures forall a :: !Blackout.Capable(panel, map[], 2, a)
  {
    forall a ensures Blackout.Members(panel, map[], a) == {} {
    }
  }

  /** What the first lantern reports of such a panel. */
  lemma KnowingCall(panel: seq<Decision>, v: Sight, out: seq<Decision>, addr: string) returns (c: T.Call)
    requires Status.Panel(panel, v.reading) && v.min == 2 && Blackout.BlackoutsOf(out, panel, v.addrs, 2)
    requires Blackout.Capable(panel, v.addrs, 2, addr) && Blackout.Dark(panel, v.addrs, addr)
    ensures Reports(c, v) && ShowsDark(v, addr)
  {
    c := T.Call(panel + out, v.alive, v.now);
    assert Status.Reported(c.decisions, panel, out, v.reading, v.addrs, 2);
  }

  /** And what the second does, in whose book the host is missing. */
  lemma UnknowingCall(panel: seq<Decision>, v: Sight, addr: string) returns (c: T.Call)
    requires Status.Panel(panel, v.reading) && v.addrs == map[] && v.min == 2
    ensures Reports(c, v) && !Shows(v, addr)
  {
    NobodyListed(panel);
    assert panel + [] == panel;
    c := T.Call(panel, v.alive, v.now);
    assert Status.Reported(c.decisions, panel, [], v.reading, map[], 2);
    if Shows(v, addr) {
      var p :| Status.Panel(p, v.reading) && Blackout.Capable(p, map[], 2, addr);
      NobodyListed(p);
    }
  }

  /** One flash: what both see, and what each makes of it. */
  datatype Moment = Moment(sight: Sight, knowing: T.Call, unknowing: T.Call)

  ghost predicate DarkFlash(x: Scene, f: Moment, at: Time) {
    var v := f.sight;
    && BothFoundDown(x, v.reading, at) && v.addrs == FullBook(x) && v.min == 2 && v.alive == [x.a, x.b] && v.now == at
    && Status.Unclaimed(v.reading.store, x.host)
    && Reports(f.knowing, v) && ShowsDark(v, x.host)
    && Reports(f.unknowing, v.(addrs := map[])) && !Shows(v.(addrs := map[]), x.host)
  }

  lemma MakeFlash(x: Scene, r: Reading, panel: seq<Decision>, at: Time) returns (f: Moment)
    requires BothFoundDown(x, r, at) && Status.Unclaimed(r.store, x.host) && Status.Panel(panel, r)
    requires TwoDown(x, panel) && x.host != "" && Blackout.Capable(panel, FullBook(x), 2, x.host)
    ensures DarkFlash(x, f, at)
  {
    var v := Sight(r, FullBook(x), 2, [x.a, x.b], at);
    OneBlackout(x, panel);
    var c := KnowingCall(panel, v, [Blackout.GroupDecision(panel, FullBook(x), 2, x.host)], x.host);
    var d := UnknowingCall(panel, v.(addrs := map[]), x.host);
    f := Moment(v, c, d);
  }

  lemma ReadingExists(x: Scene, at: Time) returns (r: Reading)
    ensures BothFoundDown(x, r, at)
  {
    var store := map[KeyFor(x.a, x.web) := DownOn(x.a, x.web, at), KeyFor(x.a, x.mail) := DownOn(x.a, x.mail, at),
                     KeyFor(x.b, x.web) := DownOn(x.b, x.web, at), KeyFor(x.b, x.mail) := DownOn(x.b, x.mail, at)];
    r := Reading(store, 2, x.maxAge, at);
  }

  lemma FlashOf(cfg: T.Config, x: Scene, r: Reading, at: Time) returns (f: Moment)
    requires Staged(cfg, x) && BothFoundDown(x, r, at) && Status.Unclaimed(r.store, x.host)
    ensures DarkFlash(x, f, at)
  {
    var panel := PanelExists(cfg, x, r, at);
    HostIsCapable(x, panel);
    f := MakeFlash(x, r, panel, at);
  }

  lemma FlashExists(cfg: T.Config, x: Scene, at: Time) returns (f: Moment)
    requires Staged(cfg, x)
    ensures DarkFlash(x, f, at)
  {
    var r := ReadingExists(x, at);
    SubjectsHeld(x, r, at);
    f := FlashOf(cfg, x, r, at);
  }

  // ---- The runs ----

  /** A first flash, one when the warmup is over, and one when the delay is over too. */
  function Instants(cfg: T.Config): seq<Time> {
    [1, 1 + Max(cfg.warmup, 0), 1 + Max(cfg.warmup, 0) + Max(cfg.holdDown, 0)]
  }

  /** A dark flash at each of these instants. */
  ghost predicate DarkRun(x: Scene, instants: seq<Time>, run: seq<Moment>) {
    |run| == |instants| && forall m :: 0 <= m < |run| ==> DarkFlash(x, run[m], instants[m])
  }

  lemma OneMore<X>(has: (X, Time) -> bool, instants: seq<Time>, xs: seq<X>, x: X)
    requires |instants| == |xs| + 1 && has(x, instants[|xs|])
    requires forall m :: 0 <= m < |xs| ==> has(xs[m], instants[..|xs|][m])
    ensures forall m :: 0 <= m < |xs| + 1 ==> has((xs + [x])[m], instants[m])
  {
    forall m | 0 <= m < |xs| ensures has((xs + [x])[m], instants[m]) {
      assert instants[..|xs|][m] == instants[m] && (xs + [x])[m] == xs[m];
    }
  }

  lemma {:induction false} RunExists(cfg: T.Config, x: Scene, instants: seq<Time>) returns (run: seq<Moment>)
    requires Staged(cfg, x)
    ensures DarkRun(x, instants, run)
  {
    run := [];
    if instants != [] {
      var n := |instants| - 1;
      run := RunExists(cfg, x, instants[..n]);
      var f := FlashExists(cfg, x, instants[n]);
      OneMore((g: Moment, at: Time) => DarkFlash(x, g, at), instants, run, f);
      run := run + [f];
    }
  }

  /** What the first lantern's tracker is called with, and what the second's. */
  function Knowing(run: seq<Moment>): seq<T.Call> {
    seq(|run|, m requires 0 <= m < |run| => run[m].knowing)
  }

  function Unknowing(run: seq<Moment>): seq<T.Call> {
    seq(|run|, m requires 0 <= m < |run| => run[m].unknowing)
  }

  /** What such calls say about the alarm. */
  ghost predicate Says(f: Moment, s: Subject, alive: seq<Name>, at: Time) {
    && f.knowing.now == at && f.knowing.alive == f.unknowing.alive == alive
    && CalledDown(f.knowing, s) && OnlyDown(f.knowing, s) && Once(f.knowing.decisions, s)
    && !L.Names(f.unknowing.decisions, s)
  }

  lemma FlashSpeaks(x: Scene, f: Moment, at: Time)
    requires DarkFlash(x, f, at)
    ensures Says(f, Alarm(x.host), [x.a, x.b], at)
  {
    BookSpeaks(f.knowing, f.sight, x.host);
    ReportedOnce(f.knowing, f.sight, x.host);
    BookSpeaks(f.unknowing, f.sight.(addrs := map[]), x.host);
  }

  ghost predicate AllSay(run: seq<Moment>, s: Subject, alive: seq<Name>, instants: seq<Time>) {
    |run| == |instants| && forall m :: 0 <= m < |run| ==> Says(run[m], s, alive, instants[m])
  }

  lemma RunSpeaks(x: Scene, instants: seq<Time>, run: seq<Moment>)
    requires DarkRun(x, instants, run)
    ensures AllSay(run, Alarm(x.host), [x.a, x.b], instants)
  {
    forall m | 0 <= m < |run| ensures Says(run[m], Alarm(x.host), [x.a, x.b], instants[m]) {
      FlashSpeaks(x, run[m], instants[m]);
    }
  }

  lemma NeverDenied(run: seq<Moment>, s: Subject, alive: seq<Name>, instants: seq<Time>)
    requires AllSay(run, s, alive, instants)
    requires forall m, n :: 0 <= m <= n < |instants| ==> ZERO_TIME < instants[m] <= instants[n]
    ensures DeniedNever(Knowing(run), s) && forall m :: 0 <= m < |run| ==> Knowing(run)[m].now == instants[m]
  {
    forall m | 0 <= m < |run|
      ensures Knowing(run)[m].now == instants[m] && Once(Knowing(run)[m].decisions, s)
      ensures CalledDown(Knowing(run)[m], s) && OnlyDown(Knowing(run)[m], s)
    {
      assert Says(run[m], s, alive, instants[m]);
    }
  }

  lemma AliveThroughout(run: seq<Moment>, s: Subject, alive: seq<Name>, instants: seq<Time>)
    requires AllSay(run, s, alive, instants)
    ensures forall c :: c in Knowing(run) || c in Unknowing(run) ==> c.alive == alive
    ensures forall m :: 0 <= m < |run| ==> !L.Names(Unknowing(run)[m].decisions, s)
  {
    forall m | 0 <= m < |run|
      ensures Knowing(run)[m].alive == alive && Unknowing(run)[m].alive == alive
      ensures !L.Names(Unknowing(run)[m].decisions, s)
    {
      assert Says(run[m], s, alive, instants[m]);
    }
  }

  lemma FirstAnnounces(cfg: T.Config, run: seq<Moment>, s: Subject, alive: seq<Name>)
    requires AllSay(run, s, alive, Instants(cfg))
    ensures T.Event(T.WentDown, s) in Paging.Announced(L.Run(cfg, Knowing(run)).1)
  {
    NeverDenied(run, s, alive, Instants(cfg));
    ThreeDownsAreAnnounced(cfg, Knowing(run), s);
  }

  lemma SecondIsElected(score: E.Score, s: Subject, a: Name, b: Name)
    requires a != "" && score(b, s) > score(a, s)
    ensures E.Elected(score, s, [a, b]) == b
  {
    assert [a, b][..1] == [a] && [a][..0] == [];
    assert E.Elected(score, s, [a]) == a;
  }

  lemma UnnamedIsSilent(cfg: T.Config, calls: seq<T.Call>, s: Subject)
    requires forall m :: 0 <= m < |calls| ==> !L.Names(calls[m].decisions, s)
    ensures T.Event(T.WentDown, s) !in Paging.Announced(L.Run(cfg, calls).1)
  {
    UnnamedHasNoLife(cfg, calls, s);
    L.RunIsLives(cfg, calls, s);
    if T.Event(T.WentDown, s) in Paging.Announced(L.Run(cfg, calls).1) {
      AnnouncedIsLived(L.Run(cfg, calls).1, T.WentDown, s);
    }
  }

  lemma TwoLogs(a: Name, b: Name, log: seq<T.Entry>, other: seq<T.Entry>)
    ensures Paging.AllSent([a, b], [log, other]) == multiset(T.SentBy(b, other)) + multiset(T.SentBy(a, log))
  {
    assert Paging.AllSent([b], [other]) == multiset(T.SentBy(b, other)) by {
      assert [b][1..] == [] && [other][1..] == [];
    }
    assert [a, b][1..] == [b] && [log, other][1..] == [other];
  }

  /** If every page names the second of two lanterns, and the second announces none, none is sent. */
  lemma SecondIsSilent(a: Name, b: Name, log: seq<T.Entry>, silent: seq<T.Entry>, event: T.Event)
    requires a != b && OneWinner(log, event.subject, b) && OneWinner(silent, event.subject, b)
    requires event !in Paging.Announced(silent)
    ensures event !in Paging.AllSent([a, b], [log, silent])
  {
    OthersSendNothing(log, event, b, a);
    WinnerSendsAll(silent, event, b);
    TwoLogs(a, b, log, silent);
  }

  /** The first lantern's run announces the alarm, and over both runs nobody sends it. */
  ghost predicate Lost(cfg: T.Config, a: Name, b: Name, run: seq<Moment>, event: T.Event) {
    var log, other := L.Run(cfg, Knowing(run)).1, L.Run(cfg, Unknowing(run)).1;
    event in Paging.Announced(log) && event !in Paging.AllSent([a, b], [log, other])
  }

  lemma OneWinnerThroughout(cfg: T.Config, a: Name, b: Name, run: seq<Moment>, s: Subject)
    requires a != "" && b != "" && b == E.Elected(cfg.score, s, [a, b]) && AllSay(run, s, [a, b], Instants(cfg))
    ensures OneWinner(L.Run(cfg, Knowing(run)).1, s, b) && OneWinner(L.Run(cfg, Unknowing(run)).1, s, b)
  {
    AliveThroughout(run, s, [a, b], Instants(cfg));
    SteadyWinner(cfg, Knowing(run), s, [a, b]);
    SteadyWinner(cfg, Unknowing(run), s, [a, b]);
  }

  lemma SecondAnnouncesNothing(cfg: T.Config, alive: seq<Name>, run: seq<Moment>, s: Subject)
    requires AllSay(run, s, alive, Instants(cfg))
    ensures T.Event(T.WentDown, s) !in Paging.Announced(L.Run(cfg, Unknowing(run)).1)
  {
    AliveThroughout(run, s, alive, Instants(cfg));
    UnnamedIsSilent(cfg, Unknowing(run), s);
  }

  lemma DarkRunsLose(cfg: T.Config, a: Name, b: Name, run: seq<Moment>, s: Subject)
    requires a != b && a != "" && b != "" && b == E.Elected(cfg.score, s, [a, b])
    requires AllSay(run, s, [a, b], Instants(cfg))
    ensures Lost(cfg, a, b, run, T.Event(T.WentDown, s))
  {
    FirstAnnounces(cfg, run, s, [a, b]);
    SecondAnnouncesNothing(cfg, [a, b], run, s);
    OneWinnerThroughout(cfg, a, b, run, s);
    SecondIsSilent(a, b, L.Run(cfg, Knowing(run)).1, L.Run(cfg, Unknowing(run)).1, T.Event(T.WentDown, s));
  }

  /**
   The blackout nobody sends. For every staged scene there is a run of flashes at which both lanterns report what
   they really see, alike in everything but the address book; over it the first announces the blackout, and
   nobody ever sends it.
   */
  lemma TheBlackoutNobodySends(cfg: T.Config, x: Scene) returns (run: seq<Moment>)
    requires Staged(cfg, x)
    ensures DarkRun(x, Instants(cfg), run)
    ensures Lost(cfg, x.a, x.b, run, T.Event(T.WentDown, Alarm(x.host)))
  {
    run := RunExists(cfg, x, Instants(cfg));
    RunSpeaks(x, Instants(cfg), run);
    SecondIsElected(cfg.score, Alarm(x.host), x.a, x.b);
    DarkRunsLose(cfg, x.a, x.b, run, Alarm(x.host));
  }
}
