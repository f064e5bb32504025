/**
 What the tracker promises over whole runs: every announcement is sent exactly once, the announcements
 tell the truth about what was committed, and a bouncing subject is damped.
 */
module Paging {
  import opened Base
  import opened Quorum
  import opened Election
  import opened Tracker
  import opened TrackerLife

  // ---- Exactly once ----

  /** Every page announced by a call is elected among the lanterns that call believed alive. */
  ghost predicate PagesElected(cfg: Config, log: seq<Entry>, alive: seq<Name>) {
    forall e :: e in log && e.Judged? && e.mark.Step? && e.mark.page.Some? ==>
      e.mark.alive == alive && e.mark.page.value.winner == Elected(cfg.score, e.subject, alive)
  }

  lemma StepElects(cfg: Config, s: Subject, r: Row, cur: State, alive: seq<Name>, now: Time)
    ensures
      var m := StepRow(cfg, s, r, cur, alive, now).1;
      && m.Step? && m.at == now && m.cur == cur && m.alive == alive
      && (m.page.Some? ==> m.page.value.winner == Elected(cfg.score, s, alive))
  {
  }

  lemma {:induction false} JudgeAllElects(cfg: Config, b: Book, ds: seq<Decision>, alive: seq<Name>, now: Time)
    ensures PagesElected(cfg, JudgeAll(cfg, b, ds, alive, now).1, alive)
  {
    if ds != [] {
      var b1 := JudgeAll(cfg, b, ds[..|ds| - 1], alive, now).0;
      var d := ds[|ds| - 1];
      JudgeAllElects(cfg, b, ds[..|ds| - 1], alive, now);
      StepElects(cfg, d.About(), RowOf(b1, d.About()), d.state, alive, now);
    }
  }

  ghost predicate HasPage(e: Entry, p: Page) {
    e.Judged? && e.mark.Step? && e.mark.page == Some(p)
  }

  /** Each announcement of a run names a winner out of the alive list of the call that made it. */
  lemma {:induction false} WinnersAreAlive(cfg: Config, calls: seq<Call>, e: Entry, p: Page)
    requires e in Run(cfg, calls).1 && HasPage(e, p)
    requires forall c :: c in calls ==> c.alive != [] && "" !in c.alive
    ensures exists c :: c in calls && e.mark.alive == c.alive
    ensures p.winner in e.mark.alive && p.winner == Elected(cfg.score, e.subject, e.mark.alive)
  {
    var rest, c := calls[..|calls| - 1], calls[|calls| - 1];
    if e in Run(cfg, rest).1 {
      WinnersAreAlive(cfg, rest, e, p);
    } else {
      var m := Run(cfg, rest).0;
      var b := Mentioned(m.book, c.decisions, c.now);
      JudgeAllElects(cfg, Without(b, Stale(b, c.now)), c.decisions, c.alive, c.now);
      ElectedIsMaximum(cfg.score, e.subject, c.alive);
    }
  }

  /** The page, if any, that one entry announces to one of `names`. */
  function PageTo(names: set<Name>, e: Entry): multiset<Event> {
    if e.Judged? && e.mark.Step? && e.mark.page.Some? && e.mark.page.value.winner in names
    then multiset{Event(e.mark.page.value.kind, e.subject)} else multiset{}
  }

  /** The pages a run announced to a set of lanterns. */
  function AnnouncedTo(names: set<Name>, log: seq<Entry>): multiset<Event> {
    if log == [] then multiset{} else AnnouncedTo(names, log[..|log| - 1]) + PageTo(names, log[|log| - 1])
  }

  /** Every lantern of a fleet runs its own tracker and keeps its own log; this is all they send together. */
  function AllSent(fleet: seq<Name>, logs: seq<seq<Entry>>): multiset<Event>
    requires |logs| == |fleet|
  {
    if fleet == [] then multiset{} else AllSent(fleet[1..], logs[1..]) + multiset(SentBy(fleet[0], logs[0]))
  }

  predicate Distinct(fleet: seq<Name>) {
    forall i, j :: 0 <= i < j < |fleet| ==> fleet[i] != fleet[j]
  }

  /** Somebody is alive, has a name and belongs to the fleet. */
  predicate Manned(alive: seq<Name>, fleet: seq<Name>) {
    alive != [] && "" !in alive && Elements(alive) <= Elements(fleet)
  }

  lemma OneSenderOnePage(names: set<Name>, n: Name, e: Entry)
    requires n !in names
    ensures PageTo(names + {n}, e) == PageTo(names, e) + multiset(Sends(n, e))
  {
  }

  lemma {:induction false} OneMoreSender(names: set<Name>, n: Name, log: seq<Entry>)
    requires n !in names
    ensures AnnouncedTo(names + {n}, log) == AnnouncedTo(names, log) + multiset(SentBy(n, log))
  {
    if log != [] {
      var rest, e := log[..|log| - 1], log[|log| - 1];
      OneMoreSender(names, n, rest);
      OneSenderOnePage(names, n, e);
      assert multiset(SentBy(n, rest) + Sends(n, e)) == multiset(SentBy(n, rest)) + multiset(Sends(n, e));
    }
  }

  lemma {:induction false} NobodyAnnounced(log: seq<Entry>)
    ensures AnnouncedTo({}, log) == multiset{}
  {
    if log != [] {
      NobodyAnnounced(log[..|log| - 1]);
    }
  }

  lemma {:induction false} FleetSends(fleet: seq<Name>, logs: seq<seq<Entry>>, log: seq<Entry>)
    requires Distinct(fleet) && |logs| == |fleet| && forall i :: 0 <= i < |logs| ==> logs[i] == log
    ensures AllSent(fleet, logs) == AnnouncedTo(Elements(fleet), log)
  {
    if fleet == [] {
      NobodyAnnounced(log);
      ElementsEmpty(fleet);
    } else {
      assert fleet == [fleet[0]] + fleet[1..];
      FleetSends(fleet[1..], logs[1..], log);
      OneMoreSender(Elements(fleet[1..]), fleet[0], log);
      assert Elements(fleet) == Elements(fleet[1..]) + {fleet[0]};
    }
  }

  /** Everything a log announces. */
  function Announced(log: seq<Entry>): multiset<Event> {
    if log == [] then multiset{}
    else
      var e := log[|log| - 1];
      Announced(log[..|log| - 1])
      + if e.Judged? && e.mark.Step? && e.mark.page.Some? then multiset{Event(e.mark.page.value.kind, e.subject)}
          else multiset{}
  }

  lemma {:induction false} AllAnnounced(names: set<Name>, log: seq<Entry>)
    requires forall e, p :: e in log && HasPage(e, p) ==> p.winner in names
    ensures AnnouncedTo(names, log) == Announced(log)
  {
    if log != [] {
      var rest, e := log[..|log| - 1], log[|log| - 1];
      assert log == rest + [e];
      AllAnnounced(names, rest);
      if e.Judged? && e.mark.Step? && e.mark.page.Some? {
        assert HasPage(e, e.mark.page.value);
      }
    }
  }

  /**
   Exactly-once paging. Give every lantern of a fleet the same decisions and the same alive lists: what
   the fleet sends, counted with multiplicity, is what was announced, no page lost and none doubled.
   */
  lemma FleetPagesExactlyOnce(cfg: Config, calls: seq<Call>, fleet: seq<Name>, logs: seq<seq<Entry>>)
    requires Distinct(fleet) && |logs| == |fleet| && forall i :: 0 <= i < |logs| ==> logs[i] == Run(cfg, calls).1
    requires forall c :: c in calls ==> Manned(c.alive, fleet)
    ensures AllSent(fleet, logs) == Announced(Run(cfg, calls).1)
  {
    var log := Run(cfg, calls).1;
    forall e, p | e in log && HasPage(e, p) ensures p.winner in Elements(fleet) {
      WinnersAreAlive(cfg, calls, e, p);
      assert p.winner in Elements(e.mark.alive);
    }
    FleetSends(fleet, logs, log);
    AllAnnounced(Elements(fleet), log);
  }

  // ---- Reading a trace ----

  /** What an operator who reads only the pages believes about a subject. */
  datatype Belief = Calm(state: State) | Bouncing

  function Told(k: Kind): Belief {
    match k
    case WentDown => Calm(Down)
    case Warns => Calm(Warn)
    case Recovered => Calm(Up)
    case Cleared => Calm(Up)
    case Flapping => Bouncing
    case Settled(at) => Calm(at)
  }

  function Init(t: seq<Mark>): seq<Mark>
    requires t != []
  {
    t[..|t| - 1]
  }

  function Believed(t: seq<Mark>): Belief {
    if t == [] then Calm(Up)
    else match t[|t| - 1]
      case Reset(_) => Calm(Up)
      case Step(_, _, _, _, page) => if page.Some? then Told(page.value.kind) else Believed(Init(t))
  }

  predicate Settles(m: Mark) {
    m.Step? && m.page.Some? && m.page.value.kind.Settled?
  }

  /** When the subject changed state, since it last settled or was evicted. */
  function CommitTimes(t: seq<Mark>): seq<Time> {
    if t == [] || t[|t| - 1].Reset? || Settles(t[|t| - 1]) then []
    else if t[|t| - 1].committed then CommitTimes(Init(t)) + [t[|t| - 1].at]
    else CommitTimes(Init(t))
  }

  /** When a transition was announced, since the subject last settled or was evicted. Takeovers repeat old news. */
  function PageTimes(t: seq<Mark>): seq<Time> {
    if t == [] || t[|t| - 1].Reset? || Settles(t[|t| - 1]) then []
    else if t[|t| - 1].page.Some? && !t[|t| - 1].page.value.takeover then PageTimes(Init(t)) + [t[|t| - 1].at]
    else PageTimes(Init(t))
  }

  /** The lantern that last spoke for the subject, other than to say it settled. */
  function LastSender(t: seq<Mark>): Option<Name> {
    if t == [] || t[|t| - 1].Reset? then None
    else if t[|t| - 1].page.Some? && !Settles(t[|t| - 1]) then Some(t[|t| - 1].page.value.winner)
    else LastSender(Init(t))
  }

  /** The state last committed. */
  function CommittedIn(t: seq<Mark>): State {
    if t == [] || t[|t| - 1].Reset? then Up
    else if t[|t| - 1].committed then t[|t| - 1].cur
    else CommittedIn(Init(t))
  }

  /** The mark at `k` is a Down that changed nothing, because it was held back. */
  predicate HeldBack(t: seq<Mark>, k: nat)
    requires k < |t|
  {
    t[k].Step? && t[k].cur == Down && !t[k].committed && CommittedIn(t[..k]) != Down
  }

  /** Every decision from `k` to the end was a Down held back, and `k` carries a clock reading. */
  ghost predicate HeldThrough(t: seq<Mark>, k: nat) {
    k < |t| && t[k].at != ZERO_TIME && forall i :: k <= i < |t| ==> HeldBack(t, i)
  }

  ghost predicate HeldFrom(t: seq<Mark>, k: nat) {
    HeldThrough(t, k) && forall i :: 0 <= i < k ==> !HeldThrough(t, i)
  }

  /** When the longest run of held back Downs at the end of the history began. */
  ghost function HeldSince(t: seq<Mark>): Time {
    if exists k: nat :: HeldFrom(t, k) then
      var k: nat :| HeldFrom(t, k);
      t[k].at
    else ZERO_TIME
  }

  /** The tracker's own way of keeping that instant, decision by decision. */
  function HeldClock(t: seq<Mark>): Time {
    if t == [] || t[|t| - 1].Reset? then ZERO_TIME
    else
      var m := t[|t| - 1];
      if m.cur == Down && !m.committed && CommittedIn(Init(t)) != Down
      then (if HeldClock(Init(t)) == ZERO_TIME then m.at else HeldClock(Init(t)))
      else ZERO_TIME
  }

  lemma HeldThroughGrows(t: seq<Mark>, k: nat)
    requires t != [] && k < |t| - 1
    ensures HeldThrough(t, k) <==> HeldThrough(Init(t), k) && HeldBack(t, |t| - 1)
  {
    var rest := Init(t);
    forall i | 0 <= i < |rest| ensures rest[i] == t[i] && (HeldBack(rest, i) <==> HeldBack(t, i)) {
      assert rest[..i] == t[..i];
    }
    if HeldThrough(t, k) {
      assert HeldBack(t, |t| - 1);
    }
  }

  /** The clock is zero when there is no such run, and otherwise the instant of its first mark. */
  lemma {:induction false} HeldClockNamesRun(t: seq<Mark>)
    ensures HeldClock(t) == ZERO_TIME ==> forall k: nat :: !HeldThrough(t, k)
    ensures HeldClock(t) != ZERO_TIME ==> exists k: nat :: HeldFrom(t, k) && t[k].at == HeldClock(t)
  {
    if t != [] {
      var rest, n := Init(t), |t| - 1;
      HeldClockNamesRun(rest);
      forall k: nat | k < n ensures HeldThrough(t, k) <==> HeldThrough(rest, k) && HeldBack(t, n) {
        HeldThroughGrows(t, k);
      }
      assert t[..n] == rest;
      if HeldBack(t, n) && HeldClock(rest) != ZERO_TIME {
        var k: nat :| HeldFrom(rest, k) && rest[k].at == HeldClock(rest);
        assert HeldFrom(t, k) && t[k].at == HeldClock(t);
      } else if HeldBack(t, n) && t[n].at != ZERO_TIME {
        assert HeldFrom(t, n) && t[n].at == HeldClock(t);
      } else {
        forall k: nat ensures !HeldThrough(t, k) {
          if k < n {
            HeldThroughGrows(t, k);
          }
        }
      }
    }
  }

  lemma HeldClockIsHeldSince(t: seq<Mark>)
    ensures HeldClock(t) == HeldSince(t)
  {
    HeldClockNamesRun(t);
    forall k: nat, l: nat | HeldFrom(t, k) && HeldFrom(t, l) ensures k == l {
      assert HeldThrough(t, k) && HeldThrough(t, l);
    }
  }

  // ---- The flap window ----

  /** The instants no more than the flap window before `now`. */
  function Within(times: seq<Time>, now: Time): seq<Time> {
    if times == [] then []
    else
      var last := times[|times| - 1];
      var older := Within(times[..|times| - 1], now);
      if now - last <= FLAP_WINDOW then older + [last] else older
  }

  function Recent(times: seq<Time>): seq<Time> {
    if times == [] then [] else Within(times, times[|times| - 1])
  }

  predicate Sorted(times: seq<Time>) {
    forall i, j :: 0 <= i <= j < |times| ==> times[i] <= times[j]
  }

  lemma {:induction false} WithinJoins(times: seq<Time>, more: seq<Time>, now: Time)
    ensures Within(times + more, now) == Within(times, now) + Within(more, now)
  {
    if more == [] {
      assert times + more == times;
    } else {
      var rest := more[..|more| - 1];
      assert (times + more)[..|times + more| - 1] == times + rest;
      WithinJoins(times, rest, now);
    }
  }

  lemma {:induction false} AllWithin(times: seq<Time>, now: Time)
    requires forall i :: 0 <= i < |times| ==> now - times[i] <= FLAP_WINDOW
    ensures Within(times, now) == times
  {
    if times != [] {
      assert times == times[..|times| - 1] + [times[|times| - 1]];
      AllWithin(times[..|times| - 1], now);
    }
  }

  /** On a sorted list the source's trimming loop is the filter. */
  lemma {:induction false} TrimIsFilter(times: seq<Time>, now: Time)
    requires Sorted(times)
    ensures Trim(times, now) == Within(times, now)
  {
    if times != [] && now - times[0] > FLAP_WINDOW {
      TrimIsFilter(times[1..], now);
      assert times == [times[0]] + times[1..];
      WithinJoins([times[0]], times[1..], now);
      assert [times[0]][..0] == [];
    } else {
      forall i | 0 <= i < |times| ensures now - times[i] <= FLAP_WINDOW {
        assert times[0] <= times[i];
      }
      AllWithin(times, now);
    }
  }

  lemma {:induction false} WithinNested(times: seq<Time>, earlier: Time, now: Time)
    requires earlier <= now
    ensures Within(Within(times, earlier), now) == Within(times, now)
    ensures forall x :: x in Within(times, earlier) ==> x in times
  {
    if times != [] {
      var rest, last := times[..|times| - 1], times[|times| - 1];
      WithinNested(rest, earlier, now);
      if earlier - last <= FLAP_WINDOW {
        assert (Within(rest, earlier) + [last])[..|Within(rest, earlier)|] == Within(rest, earlier);
      }
    }
  }

  lemma SortedGrows(times: seq<Time>, now: Time)
    requires Sorted(times) && forall x :: x in times ==> x <= now
    ensures Sorted(times + [now])
  {
    forall i, j | 0 <= i <= j < |times + [now]| ensures (times + [now])[i] <= (times + [now])[j] {
      if j == |times| && i < |times| {
        assert times[i] in times;
      }
    }
  }

  lemma {:induction false} WithinSorted(times: seq<Time>, now: Time)
    requires Sorted(times)
    ensures Sorted(Within(times, now))
    ensures forall x :: x in Within(times, now) ==> x in times
  {
    if times != [] {
      var rest, last := times[..|times| - 1], times[|times| - 1];
      WithinSorted(rest, now);
      forall x | x in Within(rest, now) ensures x <= last {
        var i :| 0 <= i < |rest| && rest[i] == x;
        assert times[i] <= times[|times| - 1];
      }
      SortedGrows(Within(rest, now), last);
    }
  }

  /** The trimmed list the tracker keeps is exactly what a full history would say about the last ten minutes. */
  lemma TrimKeepsRecent(times: seq<Time>, now: Time)
    requires Sorted(times) && forall x :: x in times ==> x <= now
    ensures Trim(Recent(times) + [now], now) == Recent(times + [now])
  {
    var last := if times == [] then now else times[|times| - 1];
    SortedGrows(times, now);
    WithinSorted(times, last);
    SortedGrows(Recent(times), now);
    TrimIsFilter(Recent(times) + [now], now);
    WithinJoins(Recent(times), [now], now);
    WithinJoins(times, [now], now);
    if times != [] {
      assert times[|times| - 1] in times;
      WithinNested(times, last, now);
    }
  }

  /** Four changes inside the window are all in the recent list. */
  lemma FourRecent(times: seq<Time>)
    requires Sorted(times) && |times| >= 4
    ensures times[|times| - 1] - times[|times| - 4] <= FLAP_WINDOW ==> |Recent(times)| >= 4
  {
    var n := |times|;
    var now := times[n - 1];
    if now - times[n - 4] <= FLAP_WINDOW {
      var tail := times[n - 4..];
      forall i | 0 <= i < |tail| ensures now - tail[i] <= FLAP_WINDOW {
        assert times[n - 4] <= times[n - 4 + i];
      }
      AllWithin(tail, now);
      WithinJoins(times[..n - 4], tail, now);
      assert times == times[..n - 4] + tail;
    }
  }

  // ---- What every life keeps ----

  /** At most four announced transitions fit into any ten minutes. */
  predicate FourInTen(pages: seq<Time>) {
    forall i :: 0 <= i && i + 4 < |pages| ==> pages[i + 4] - pages[i] > 10 * MINUTE
  }

  /** The alert delay still holds this down back. */
  ghost predicate Waits(cfg: Config, t: seq<Mark>, cur: State, now: Time) {
    && cfg.holdDown > 0 && cur == Down && CommittedIn(t) != Down
    && now - (if HeldSince(t) == ZERO_TIME then now else HeldSince(t)) < cfg.holdDown
  }

  /** The page a change of state calls for: silence while it bounces, one word when it starts to. */
  function ChangePage(cfg: Config, s: Subject, t: seq<Mark>, cur: State, alive: seq<Name>, now: Time): Option<Page> {
    var winner := Elected(cfg.score, s, alive);
    if Believed(t) == Bouncing then None
    else if |Recent(CommitTimes(t) + [now])| >= FLAP_COUNT then Some(Page(Flapping, winner, false))
    else Some(Page(KindFor(CommittedIn(t), cur), winner, false))
  }

  /** The page an unchanged state calls for: it settled, or whoever spoke for it last is gone. */
  function StandingPage(cfg: Config, s: Subject, t: seq<Mark>, cur: State, alive: seq<Name>, now: Time): Option<Page> {
    var winner := Elected(cfg.score, s, alive);
    var times := CommitTimes(t);
    if Believed(t) == Bouncing then
      if times != [] && now - times[|times| - 1] >= SETTLE_AFTER then Some(Page(Settled(cur), winner, false)) else None
    else if cur != Up && LastSender(t).Some?
        && LastSender(t).value !in alive then Some(Page(KindFor(cur, cur), winner, true))
    else None
  }

  /** What one decision calls for, told from the full history alone: no clocks, no trimmed lists, no flags. */
  ghost function Called(cfg: Config, s: Subject, t: seq<Mark>, cur: State, alive: seq<Name>, now: Time): Mark {
    if cur == CommittedIn(t) then Step(cur, alive, now, false, StandingPage(cfg, s, t, cur, alive, now))
    else if Waits(cfg, t, cur, now) then Step(cur, alive, now, false, None)
    else Step(cur, alive, now, true, ChangePage(cfg, s, t, cur, alive, now))
  }

  /** What was done at `k` is what the history before it calls for. */
  ghost predicate InOrder(cfg: Config, s: Subject, t: seq<Mark>, k: nat)
    requires k < |t|
  {
    t[k].Step? ==> t[k] == Called(cfg, s, t[..k], t[k].cur, t[k].alive, t[k].at)
  }

  ghost predicate Remembered(cfg: Config, r: Row, t: seq<Mark>) {
    CommittedIn(t) == r.Committed() && (cfg.holdDown > 0 ==> HeldClock(t) == r.Since())
  }

  ghost predicate Faithful(r: Row, t: seq<Mark>) {
    && Believed(t) == (if r.flapping then Bouncing else Calm(r.Committed()))
    && (r.flapping || r.Committed() != Up ==> r.elected.Some? && r.elected == LastSender(t))
  }

  /** Any four announcements span more than the window, save that the one announcing the flap may close in. */
  predicate Spaced(pages: seq<Time>, flaps: bool) {
    forall i :: 0 <= i && i + 3 < |pages| && (flaps ==> i + 4 < |pages|) ==> pages[i + 3] - pages[i] > FLAP_WINDOW
  }

  /** How the full lists of committed and announced transitions relate to what the tracker keeps. */
  ghost predicate Window(commits: seq<Time>, pages: seq<Time>, kept: Option<seq<Time>>, flaps: bool, clock: Time) {
    && Sorted(commits) && (forall x :: x in commits ==> x <= clock)
    && Sorted(pages) && (forall x :: x in pages ==> x <= clock)
    && kept == (if commits == [] then None else Some(Recent(commits)))
    && (flaps ==> commits != [])
    && (!flaps ==> pages == commits && |Recent(commits)| < FLAP_COUNT)
    && Spaced(pages, flaps)
  }

  ghost predicate Damped(r: Row, t: seq<Mark>, clock: Time) {
    Window(CommitTimes(t), PageTimes(t), r.transitions, r.flapping, clock)
  }

  ghost predicate History(cfg: Config, s: Subject, t: seq<Mark>) {
    && (forall k :: 0 <= k < |t| ==> InOrder(cfg, s, t, k))
    && (forall k :: 0 <= k <= |t| ==> FourInTen(PageTimes(t[..k])))
  }

  ghost predicate Sound(cfg: Config, s: Subject, r: Row, t: seq<Mark>, clock: Time) {
    Faithful(r, t) && Remembered(cfg, r, t) && Damped(r, t, clock) && History(cfg, s, t)
  }

  lemma HistoryGrows(cfg: Config, s: Subject, t: seq<Mark>, m: Mark)
    requires History(cfg, s, t)
    requires InOrder(cfg, s, t + [m], |t|) && FourInTen(PageTimes(t + [m]))
    ensures History(cfg, s, t + [m])
  {
    forall k | 0 <= k < |t| + 1 ensures InOrder(cfg, s, t + [m], k) {
      if k < |t| {
        assert InOrder(cfg, s, t, k);
        assert (t + [m])[..k] == t[..k];
      }
    }
    forall k | 0 <= k <= |t| + 1 ensures FourInTen(PageTimes((t + [m])[..k])) {
      if k <= |t| {
        assert (t + [m])[..k] == t[..k];
      } else {
        assert (t + [m])[..k] == t + [m];
      }
    }
  }

  lemma RecentNonempty(times: seq<Time>)
    ensures times != [] ==> Recent(times) != [] && Recent(times)[|Recent(times)| - 1] == times[|times| - 1]
  {
  }

  lemma UnchangedFaithful(cfg: Config, s: Subject, r: Row, cur: State, alive: seq<Name>, now: Time, t: seq<Mark>)
    requires Faithful(r, t) && cur == r.Committed()
    ensures
      var (r', m) := Unchanged(cfg, s, r, cur, alive, now);
      Faithful(r', t + [m])
  {
    var (r', m) := Unchanged(cfg, s, r, cur, alive, now);
    assert Init(t + [m]) == t;
  }

  lemma UnchangedDamped(cfg: Config, s: Subject, r: Row, cur: State, alive: seq<Name>, now: Time, t: seq<Mark>,
                        clock: Time)
    requires Damped(r, t, clock) && clock <= now && cur == r.Committed()
    ensures
      var (r', m) := Unchanged(cfg, s, r, cur, alive, now);
      Damped(r', t + [m], now)
  {
    var (r', m) := Unchanged(cfg, s, r, cur, alive, now);
    assert Init(t + [m]) == t;
  }

  lemma UnchangedCalled(cfg: Config, s: Subject, r: Row, cur: State, alive: seq<Name>, now: Time, t: seq<Mark>,
                        clock: Time)
    requires Faithful(r, t) && Damped(r, t, clock) && cur == r.Committed()
    ensures Unchanged(cfg, s, r, cur, alive, now).1
        == Step(cur, alive, now, false, StandingPage(cfg, s, t, cur, alive, now))
  {
    RecentNonempty(CommitTimes(t));
  }

  lemma ChangedFaithful(cfg: Config, s: Subject, r: Row, cur: State, alive: seq<Name>, now: Time, t: seq<Mark>)
    requires Faithful(r, t) && cur != r.Committed()
    ensures
      var (r', m) := Changed(cfg, s, r, cur, alive, now);
      Faithful(r', t + [m])
  {
    var (r', m) := Changed(cfg, s, r, cur, alive, now);
    assert Init(t + [m]) == t;
  }

  lemma WindowFlapping(commits: seq<Time>, pages: seq<Time>, kept: Option<seq<Time>>, clock: Time, now: Time)
    requires Window(commits, pages, kept, true, clock) && clock <= now
    ensures Window(commits + [now], pages, Some(Trim(Recent(commits) + [now], now)), true, now)
  {
    TrimKeepsRecent(commits, now);
    SortedGrows(commits, now);
  }

  lemma WindowMoves(commits: seq<Time>, kept: Option<seq<Time>>, clock: Time, now: Time)
    requires Window(commits, commits, kept, false, clock) && clock <= now
    ensures
      var all := commits + [now];
      var kept' := Trim(Recent(commits) + [now], now);
      Window(all, all, Some(kept'), |kept'| >= FLAP_COUNT, now)
  {
    TrimKeepsRecent(commits, now);
    SortedGrows(commits, now);
    var all := commits + [now];
    if |commits| >= 3 {
      FourRecent(all);
    }
    forall i | 0 <= i && i + 3 < |all| && (|Recent(all)| >= FLAP_COUNT ==> i + 4 < |all|)
      ensures all[i + 3] - all[i] > FLAP_WINDOW
    {
      if i + 4 < |all| {
        assert commits[i + 3] - commits[i] > FLAP_WINDOW;
      }
    }
  }

  lemma ChangedDamped(cfg: Config, s: Subject, r: Row, cur: State, alive: seq<Name>, now: Time, t: seq<Mark>,
                      clock: Time)
    requires Damped(r, t, clock) && clock <= now
    ensures
      var (r', m) := Changed(cfg, s, r, cur, alive, now);
      Damped(r', t + [m], now)
  {
    var (r', m) := Changed(cfg, s, r, cur, alive, now);
    var commits := CommitTimes(t);
    assert Init(t + [m]) == t;
    assert CommitTimes(t + [m]) == commits + [now];
    assert r.Changes() == Recent(commits);
    if r.flapping {
      assert PageTimes(t + [m]) == PageTimes(t);
      WindowFlapping(commits, PageTimes(t), r.transitions, clock, now);
    } else {
      assert PageTimes(t + [m]) == commits + [now];
      WindowMoves(commits, r.transitions, clock, now);
    }
  }

  lemma ChangedCalled(cfg: Config, s: Subject, r: Row, cur: State, alive: seq<Name>, now: Time, t: seq<Mark>,
                      clock: Time)
    requires Faithful(r, t) && CommittedIn(t) == r.Committed() && Damped(r, t, clock) && clock <= now
    ensures Changed(cfg, s, r, cur, alive, now).1 == Step(cur, alive, now, true, ChangePage(cfg, s, t, cur, alive, now))
  {
    TrimKeepsRecent(CommitTimes(t), now);
    assert r.Changes() == Recent(CommitTimes(t));
  }

  lemma GapsGiveFour(pages: seq<Time>, flaps: bool)
    requires Sorted(pages) && Spaced(pages, flaps)
    ensures FourInTen(pages)
  {
    forall i | 0 <= i && i + 4 < |pages| ensures pages[i + 4] - pages[i] > FLAP_WINDOW {
      assert pages[i + 3] - pages[i] > FLAP_WINDOW && pages[i + 3] <= pages[i + 4];
    }
  }

  lemma StepFaithful(cfg: Config, s: Subject, r: Row, cur: State, alive: seq<Name>, now: Time, t: seq<Mark>)
    requires Faithful(r, t)
    ensures
      var (r', m) := StepRow(cfg, s, r, cur, alive, now);
      Faithful(r', t + [m])
  {
    var (h, held) := Held(cfg, r, cur, now);
    if held {
      assert Init(t + [Step(cur, alive, now, false, None)]) == t;
    } else if cur == h.Committed() {
      UnchangedFaithful(cfg, s, h, cur, alive, now, t);
    } else {
      ChangedFaithful(cfg, s, h, cur, alive, now, t);
    }
  }

  lemma StepDamped(cfg: Config, s: Subject, r: Row, cur: State, alive: seq<Name>, now: Time, t: seq<Mark>, clock: Time)
    requires Damped(r, t, clock) && clock <= now
    ensures
      var (r', m) := StepRow(cfg, s, r, cur, alive, now);
      Damped(r', t + [m], now)
  {
    var (h, held) := Held(cfg, r, cur, now);
    if held {
      assert Init(t + [Step(cur, alive, now, false, None)]) == t;
    } else if cur == h.Committed() {
      UnchangedDamped(cfg, s, h, cur, alive, now, t, clock);
    } else {
      ChangedDamped(cfg, s, h, cur, alive, now, t, clock);
    }
  }

  lemma StepRemembered(cfg: Config, s: Subject, r: Row, cur: State, alive: seq<Name>, now: Time, t: seq<Mark>)
    requires Remembered(cfg, r, t)
    ensures
      var (r', m) := StepRow(cfg, s, r, cur, alive, now);
      Remembered(cfg, r', t + [m])
  {
    var m := StepRow(cfg, s, r, cur, alive, now).1;
    assert Init(t + [m]) == t;
  }

  lemma StepCalled(cfg: Config, s: Subject, r: Row, cur: State, alive: seq<Name>, now: Time, t: seq<Mark>, clock: Time)
    requires Faithful(r, t) && Remembered(cfg, r, t) && Damped(r, t, clock) && clock <= now
    ensures StepRow(cfg, s, r, cur, alive, now).1 == Called(cfg, s, t, cur, alive, now)
  {
    var (h, held) := Held(cfg, r, cur, now);
    HeldClockIsHeldSince(t);
    if !held && cur == h.Committed() {
      UnchangedCalled(cfg, s, h, cur, alive, now, t, clock);
    } else if !held {
      ChangedCalled(cfg, s, h, cur, alive, now, t, clock);
    }
  }

  lemma DampedGrows(cfg: Config, s: Subject, t: seq<Mark>, m: Mark, r: Row, now: Time)
    requires History(cfg, s, t) && Damped(r, t + [m], now)
    requires m.Step? ==> m == Called(cfg, s, t, m.cur, m.alive, m.at)
    ensures History(cfg, s, t + [m])
  {
    assert (t + [m])[..|t|] == t;
    GapsGiveFour(PageTimes(t + [m]), r.flapping);
    HistoryGrows(cfg, s, t, m);
  }

  lemma StepSound(cfg: Config, s: Subject, r: Row, cur: State, alive: seq<Name>, now: Time, t: seq<Mark>, clock: Time)
    requires Sound(cfg, s, r, t, clock) && clock <= now
    ensures
      var (r', m) := StepRow(cfg, s, r, cur, alive, now);
      Sound(cfg, s, r', t + [m], now)
  {
    StepFaithful(cfg, s, r, cur, alive, now, t);
    StepDamped(cfg, s, r, cur, alive, now, t, clock);
    StepRemembered(cfg, s, r, cur, alive, now, t);
    StepCalled(cfg, s, r, cur, alive, now, t, clock);
    var (r', m) := StepRow(cfg, s, r, cur, alive, now);
    StepElects(cfg, s, r, cur, alive, now);
    DampedGrows(cfg, s, t, m, r', now);
  }

  lemma LaterSound(cfg: Config, s: Subject, r: Row, t: seq<Mark>, clock: Time, later: Time)
    requires Sound(cfg, s, r, t, clock) && clock <= later
    ensures Sound(cfg, s, r, t, later)
  {
  }

  lemma OneMoreSound(cfg: Config, s: Subject, r: Row, cur: State, alive: seq<Name>, now: Time, t: seq<Mark>,
                     more: seq<Mark>)
    requires Sound(cfg, s, r, t + more, now)
    ensures
      var (r', m) := StepRow(cfg, s, r, cur, alive, now);
      Sound(cfg, s, r', t + (more + [m]), now)
  {
    var m := StepRow(cfg, s, r, cur, alive, now).1;
    StepSound(cfg, s, r, cur, alive, now, t + more, now);
    assert t + (more + [m]) == t + more + [m];
  }

  lemma {:induction false} FedSound(cfg: Config, s: Subject, r: Row, states: seq<State>, alive: seq<Name>, now: Time,
                                    t: seq<Mark>, clock: Time)
    requires Sound(cfg, s, r, t, clock) && clock <= now
    ensures
      var (r', more) := Fed(cfg, s, r, states, alive, now);
      Sound(cfg, s, r', t + more, now)
  {
    if states == [] {
      LaterSound(cfg, s, r, t, clock, now);
      assert t + [] == t;
    } else {
      var rest, cur := states[..|states| - 1], states[|states| - 1];
      FedSound(cfg, s, r, rest, alive, now, t, clock);
      var (r1, t1) := Fed(cfg, s, r, rest, alive, now);
      OneMoreSound(cfg, s, r1, cur, alive, now, t, t1);
    }
  }

  lemma SweepSound(cfg: Config, s: Subject, r: Row, c: Call, t: seq<Mark>, clock: Time)
    requires Sound(cfg, s, r, t, clock) && clock <= c.now
    ensures
      var (r', more) := SweptRow(s, r, c);
      Sound(cfg, s, r', t + more, c.now)
  {
    var (r', more) := SweptRow(s, r, c);
    if more == [] {
      assert t + more == t;
    } else {
      var m := Reset(c.now);
      assert Init(t + [m]) == t && (t + [m])[..|t|] == t == t[..|t|];
      HistoryGrows(cfg, s, t, m);
    }
  }

  lemma {:induction false} LifeSound(cfg: Config, s: Subject, calls: seq<Call>, clock: Time)
    requires Ordered(calls) && (calls != [] ==> calls[|calls| - 1].now <= clock)
    ensures
      var l := Life(cfg, s, calls);
      Sound(cfg, s, l.row, l.trace, clock)
  {
    if calls != [] {
      var rest, c := calls[..|calls| - 1], calls[|calls| - 1];
      LifeSound(cfg, s, rest, c.now);
      var l := Life(cfg, s, rest);
      SweepSound(cfg, s, l.row, c, l.trace, c.now);
      var (r1, t1) := SweptRow(s, l.row, c);
      FedSound(cfg, s, r1, StatesOf(c.decisions, s), c.alive, c.now, l.trace + t1, c.now);
      var l' := Life(cfg, s, calls);
      LaterSound(cfg, s, l'.row, l'.trace, c.now, clock);
    }
  }

  // ---- What a run promises about each subject ----

  /**
   The event stream is faithful: whoever replays the announcements about a subject (an eviction
   forgetting it) believes the state the tracker has committed, and believes it is bouncing exactly
   while it is damped; and whenever there is something to take over, the sender on record is the last
   lantern that spoke.
   */
  lemma StreamIsFaithful(cfg: Config, calls: seq<Call>, s: Subject)
    requires Ordered(calls)
    ensures
      var (m, log) := Run(cfg, calls);
      var r := RowOf(m.book, s);
      && Believed(TraceOf(log, s)) == (if s in m.book.flapping then Bouncing else Calm(r.Committed()))
      && (s in m.book.flapping || r.Committed() != Up ==>
            s in m.book.elected && LastSender(TraceOf(log, s)) == Some(m.book.elected[s]))
  {
    LifeSound(cfg, s, calls, if calls == [] then 0 else calls[|calls| - 1].now);
    RunIsLives(cfg, calls, s);
  }

  /** The trimmed list in the tracker is what the whole history says about the ten minutes before the latest change. */
  lemma TransitionsAreTheRecentHistory(cfg: Config, calls: seq<Call>, s: Subject)
    requires Ordered(calls)
    ensures
      var (m, log) := Run(cfg, calls);
      var commits := CommitTimes(TraceOf(log, s));
      && (s in m.book.transitions <==> commits != [])
      && (s in m.book.transitions ==> m.book.transitions[s] == Recent(commits))
  {
    LifeSound(cfg, s, calls, if calls == [] then 0 else calls[|calls| - 1].now);
    RunIsLives(cfg, calls, s);
  }

  /**
   The six maps refine the history. Whatever the tracker commits, announces or keeps quiet about, at every
   decision of every run, is what `Called` reads off the subject's full history.
   */
  lemma HistoryDecides(cfg: Config, calls: seq<Call>, s: Subject, k: nat)
    requires Ordered(calls) && k < |TraceOf(Run(cfg, calls).1, s)|
    ensures
      var t := TraceOf(Run(cfg, calls).1, s);
      t[k].Step? ==> t[k] == Called(cfg, s, t[..k], t[k].cur, t[k].alive, t[k].at)
  {
    LifeSound(cfg, s, calls, if calls == [] then 0 else calls[|calls| - 1].now);
    RunIsLives(cfg, calls, s);
    assert InOrder(cfg, s, TraceOf(Run(cfg, calls).1, s), k);
  }

  lemma BouncingOnlySettles(cfg: Config, s: Subject, t: seq<Mark>, cur: State, alive: seq<Name>, now: Time)
    requires Believed(t) == Bouncing
    ensures
      var m, times := Called(cfg, s, t, cur, alive, now), CommitTimes(t);
      m.page.Some? ==> Settles(m) && times != [] && m.at - times[|times| - 1] >= 5 * MINUTE
  {
  }

  /**
   Page storms are bounded. At every point of every run, of the transitions announced since a subject last
   settled no five lie within ten minutes; and a bouncing subject is announced again only to say that it
   settled, at least five minutes after its last change.
   */
  lemma StormsAreBounded(cfg: Config, calls: seq<Call>, s: Subject, k: nat)
    requires Ordered(calls) && k <= |TraceOf(Run(cfg, calls).1, s)|
    ensures
      var t := TraceOf(Run(cfg, calls).1, s);
      && FourInTen(PageTimes(t[..k]))
      && (k < |t| && t[k].Step? && t[k].page.Some? && Believed(t[..k]) == Bouncing ==>
            && Settles(t[k])
            && CommitTimes(t[..k]) != []
            && t[k].at - CommitTimes(t[..k])[|CommitTimes(t[..k])| - 1] >= 5 * MINUTE)
  {
    LifeSound(cfg, s, calls, if calls == [] then 0 else calls[|calls| - 1].now);
    RunIsLives(cfg, calls, s);
    var t := TraceOf(Run(cfg, calls).1, s);
    if k < |t| && t[k].Step? {
      HistoryDecides(cfg, calls, s, k);
      if Believed(t[..k]) == Bouncing {
        BouncingOnlySettles(cfg, s, t[..k], t[k].cur, t[k].alive, t[k].at);
      }
    }
  }

  // ---- Nothing lives forever ----

  lemma StepKeepsMention(cfg: Config, s: Subject, r: Row, cur: State, alive: seq<Name>, now: Time)
    ensures StepRow(cfg, s, r, cur, alive, now).0.lastSeen == r.lastSeen
  {
  }

  lemma {:induction false} FedKeepsMention(cfg: Config, s: Subject, r: Row, states: seq<State>, alive: seq<Name>,
                                           now: Time)
    ensures Fed(cfg, s, r, states, alive, now).0.lastSeen == r.lastSeen
  {
    if states != [] {
      var rest, cur := states[..|states| - 1], states[|states| - 1];
      FedKeepsMention(cfg, s, r, rest, alive, now);
      StepKeepsMention(cfg, s, Fed(cfg, s, r, rest, alive, now).0, cur, alive, now);
    }
  }

  lemma {:induction false} UnnamedIsUnstated(ds: seq<Decision>, s: Subject)
    requires !Names(ds, s)
    ensures StatesOf(ds, s) == []
  {
    if ds != [] {
      assert ds[|ds| - 1].About() != s;
      assert forall i :: 0 <= i < |ds| - 1 ==> ds[..|ds| - 1][i] == ds[i];
      UnnamedIsUnstated(ds[..|ds| - 1], s);
    }
  }

  ghost predicate MentionHonest(calls: seq<Call>, s: Subject, r: Row) {
    && (r.lastSeen.None? ==> r == EMPTY_ROW)
    && (r.lastSeen.Some? ==>
          exists k :: 0 <= k < |calls| && calls[k].now == r.lastSeen.value && Names(calls[k].decisions, s))
  }

  lemma {:induction false} MentionsAreHonest(cfg: Config, calls: seq<Call>, s: Subject)
    ensures MentionHonest(calls, s, Life(cfg, s, calls).row)
    ensures
      var l := Life(cfg, s, calls);
      calls != [] && calls[|calls| - 1].now - l.start >= cfg.warmup && l.row.lastSeen.Some? ==>
        calls[|calls| - 1].now - l.row.lastSeen.value <= 72 * HOUR
  {
    if calls != [] {
      var rest, c := calls[..|calls| - 1], calls[|calls| - 1];
      MentionsAreHonest(cfg, rest, s);
      var r := Life(cfg, s, rest).row;
      FedKeepsMention(cfg, s, SweptRow(s, r, c).0, StatesOf(c.decisions, s), c.alive, c.now);
      if !Names(c.decisions, s) {
        UnnamedIsUnstated(c.decisions, s);
      }
      if r.lastSeen.Some? {
        var k :| 0 <= k < |rest| && rest[k].now == r.lastSeen.value && Names(rest[k].decisions, s);
        assert calls[k].now == r.lastSeen.value && Names(calls[k].decisions, s);
      }
      assert Names(c.decisions, s) ==> calls[|rest|].now == c.now && Names(calls[|rest|].decisions, s);
    }
  }

  /** Once the warmup is over, whatever any of the six maps holds was mentioned within the last 72 hours. */
  lemma {:induction false} NothingOutlivesItsMention(cfg: Config, calls: seq<Call>, s: Subject)
    requires calls != [] && calls[|calls| - 1].now - Run(cfg, calls).0.start >= cfg.warmup
    requires RowOf(Run(cfg, calls).0.book, s) != EMPTY_ROW
    ensures exists k :: 0 <= k < |calls| && Names(calls[k].decisions, s)
                        && calls[|calls| - 1].now - calls[k].now <= 72 * HOUR
  {
    RunIsLives(cfg, calls, s);
    MentionsAreHonest(cfg, calls, s);
  }
}
