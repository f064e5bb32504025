/**
 Who sends what, and when: at one call of one run an alarm goes out exactly if it is due and the lantern is
 elected; and over a fleet only the elected lantern's own run matters.
 */
module Alarms {
  import opened Base
  import opened Quorum
  import opened Election
  import opened Tracker
  import opened TrackerLife
  import opened Paging
  import opened HoldDown

  /** The mark announces this kind of page, to be sent by `winner`. */
  predicate Announces(m: Mark, kind: Kind, winner: Name) {
    m.Step? && m.page.Some? && m.page.value.kind == kind && m.page.value.winner == winner
  }

  // ---- Logs and lives ----

  /** A lantern sends only what its own run announced in its own name. */
  lemma {:induction false} SendersSpeak(self: Name, log: seq<Entry>, kind: Kind, s: Subject)
    requires Event(kind, s) in SentBy(self, log)
    ensures exists m :: m in TraceOf(log, s) && Announces(m, kind, self)
  {
    var rest, e := log[..|log| - 1], log[|log| - 1];
    if Event(kind, s) in SentBy(self, rest) {
      SendersSpeak(self, rest, kind, s);
    } else {
      assert Event(kind, s) in Sends(self, e);
      assert MarkOf(e, s) == [e.mark] && Announces(e.mark, kind, self);
    }
  }

  /** What a lantern announces in its own name it sends. */
  lemma {:induction false} SpeakersSend(self: Name, log: seq<Entry>, s: Subject, m: Mark, kind: Kind)
    requires m in TraceOf(log, s) && Announces(m, kind, self)
    ensures Event(kind, s) in SentBy(self, log)
  {
    var rest, e := log[..|log| - 1], log[|log| - 1];
    if m in TraceOf(rest, s) {
      SpeakersSend(self, rest, s, m, kind);
    } else {
      assert m in MarkOf(e, s);
      assert Event(kind, s) in Sends(self, e);
    }
  }

  /** What a subject's life announces is among the announcements of the run. */
  lemma {:induction false} LivesAreAnnounced(log: seq<Entry>, s: Subject, m: Mark, kind: Kind, winner: Name)
    requires m in TraceOf(log, s) && Announces(m, kind, winner)
    ensures Event(kind, s) in Announced(log)
  {
    var rest, e := log[..|log| - 1], log[|log| - 1];
    if m in TraceOf(rest, s) {
      LivesAreAnnounced(rest, s, m, kind, winner);
    } else {
      assert m in MarkOf(e, s);
    }
  }

  lemma {:induction false} AnnouncedIsLived(log: seq<Entry>, kind: Kind, s: Subject)
    requires Event(kind, s) in Announced(log)
    ensures exists m, winner :: m in TraceOf(log, s) && Announces(m, kind, winner)
  {
    var rest, e := log[..|log| - 1], log[|log| - 1];
    if Event(kind, s) in Announced(rest) {
      AnnouncedIsLived(rest, kind, s);
    } else {
      assert MarkOf(e, s) == [e.mark] && Announces(e.mark, kind, e.mark.page.value.winner);
    }
  }

  lemma {:induction false} UnnamedHasNoLife(cfg: Config, calls: seq<Call>, s: Subject)
    requires forall i :: 0 <= i < |calls| ==> !Names(calls[i].decisions, s)
    ensures Life(cfg, s, calls).row == EMPTY_ROW && Life(cfg, s, calls).trace == []
  {
    if calls != [] {
      var rest, c := calls[..|calls| - 1], calls[|calls| - 1];
      UnnamedHasNoLife(cfg, rest, s);
      UnnamedIsUnstated(c.decisions, s);
    }
  }

  /** A page about a subject is sent only by a lantern that has itself decided about it. */
  lemma PagesNeedOwnDecision(cfg: Config, calls: seq<Call>, self: Name, kind: Kind, s: Subject)
    requires Event(kind, s) in SentBy(self, Run(cfg, calls).1)
    ensures exists i :: 0 <= i < |calls| && Names(calls[i].decisions, s)
  {
    if forall i :: 0 <= i < |calls| ==> !Names(calls[i].decisions, s) {
      SendersSpeak(self, Run(cfg, calls).1, kind, s);
      UnnamedHasNoLife(cfg, calls, s);
      RunIsLives(cfg, calls, s);
    }
  }

  // ---- One call ----

  /** What call `i` of a run logs. */
  function LogAt(cfg: Config, calls: seq<Call>, i: nat): seq<Entry>
    requires i < |calls|
  {
    Observed(cfg, Run(cfg, calls[..i]).0, calls[i]).1
  }

  /** What one lantern sends at call `i` of its run. */
  function SentAt(cfg: Config, self: Name, calls: seq<Call>, i: nat): seq<Event>
    requires i < |calls|
  {
    SentBy(self, LogAt(cfg, calls, i))
  }

  /** What has happened to the subject before call `i`. */
  function Past(cfg: Config, calls: seq<Call>, s: Subject, i: nat): seq<Mark>
    requires i <= |calls|
  {
    TraceOf(Run(cfg, calls[..i]).1, s)
  }

  predicate PastWarmup(cfg: Config, calls: seq<Call>, i: nat)
    requires i < |calls|
  {
    calls[i].now - calls[0].now >= cfg.warmup
  }

  /** The marks one call adds to a life. */
  lemma CallMarks(cfg: Config, calls: seq<Call>, s: Subject, i: nat)
    requires WellFed(calls, s) && i < |calls|
    ensures
      var row, c := Life(cfg, s, calls[..i]).row, calls[i];
      TraceOf(LogAt(cfg, calls, i), s)
        == if !PastWarmup(cfg, calls, i) then []
           else SweptRow(s, row, c).1 + Feed(cfg, s, SweptRow(s, row, c).0, c.decisions, c.alive, c.now).1
  {
    var before, c := calls[..i], calls[i];
    RunIsLives(cfg, before, s);
    StartIsFirst(cfg, before, s);
    var m := Run(cfg, before).0;
    ObservedIsLived(cfg, m, c, s);
    var alone := Lived(cfg, s, LifeState(m.start, RowOf(m.book, s), []), c);
    assert alone.trace == TraceOf(LogAt(cfg, calls, i), s);
    var (r1, t1) := SweptRow(s, RowOf(m.book, s), c);
    assert [] + t1 == t1;
  }

  lemma SweptNamed(s: Subject, r: Row, c: Call)
    requires Names(c.decisions, s)
    ensures SweptRow(s, r, c) == (r.(lastSeen := Some(c.now)), [])
  {
  }

  lemma SoleStep(cfg: Config, s: Subject, r: Row, c: Call, d: Decision)
    requires Once(c.decisions, s) && d in c.decisions && Spoken(d, s)
    ensures Feed(cfg, s, r, c.decisions, c.alive, c.now).1 == [StepRow(cfg, s, r, d.state, c.alive, c.now).1]
  {
    var i :| 0 <= i < |c.decisions| && c.decisions[i] == d;
    SoleState(c.decisions, s, i);
    FedOne(cfg, s, r, d.state, c.alive, c.now);
  }

  /** The last mention plays no part in what a decision calls for. */
  lemma MentionPlaysNoPart(cfg: Config, s: Subject, r: Row, t: seq<Mark>, c: Call, cur: State)
    requires Sound(cfg, s, r, t, c.now)
    ensures StepRow(cfg, s, r.(lastSeen := Some(c.now)), cur, c.alive, c.now).1
         == Called(cfg, s, t, cur, c.alive, c.now)
  {
    StepCalled(cfg, s, r.(lastSeen := Some(c.now)), cur, c.alive, c.now, t, c.now);
  }

  lemma SpokenOnRow(cfg: Config, s: Subject, r: Row, t: seq<Mark>, c: Call, d: Decision)
    requires Once(c.decisions, s) && d in c.decisions && Spoken(d, s) && Sound(cfg, s, r, t, c.now)
    ensures SweptRow(s, r, c).1 + Feed(cfg, s, SweptRow(s, r, c).0, c.decisions, c.alive, c.now).1
         == [Called(cfg, s, t, d.state, c.alive, c.now)]
  {
    NamedIn(c.decisions, d, s);
    SweptNamed(s, r, c);
    SoleStep(cfg, s, r.(lastSeen := Some(c.now)), c, d);
    MentionPlaysNoPart(cfg, s, r, t, c, d.state);
  }

  /** A decision somebody voted in is answered as the history before it calls for. */
  lemma SpokenMark(cfg: Config, calls: seq<Call>, s: Subject, i: nat, d: Decision)
    requires WellFed(calls, s) && i < |calls| && PastWarmup(cfg, calls, i)
    requires d in calls[i].decisions && Spoken(d, s)
    ensures TraceOf(LogAt(cfg, calls, i), s)
         == [Called(cfg, s, Past(cfg, calls, s, i), d.state, calls[i].alive, calls[i].now)]
  {
    CallMarks(cfg, calls, s, i);
    RunIsLives(cfg, calls[..i], s);
    LifeSound(cfg, s, calls[..i], calls[i].now);
    SpokenOnRow(cfg, s, Life(cfg, s, calls[..i]).row, Past(cfg, calls, s, i), calls[i], d);
  }

  /** Where nobody voted, nothing is announced. */
  lemma SilentMarks(cfg: Config, calls: seq<Call>, s: Subject, i: nat, m: Mark)
    requires WellFed(calls, s) && i < |calls| && m in TraceOf(LogAt(cfg, calls, i), s) && m.Step?
    ensures PastWarmup(cfg, calls, i) && exists d :: d in calls[i].decisions && Spoken(d, s)
  {
    var row, c := Life(cfg, s, calls[..i]).row, calls[i];
    CallMarks(cfg, calls, s, i);
    if forall k :: 0 <= k < |c.decisions| ==> !Spoken(c.decisions[k], s) {
      Unspoken(c.decisions, s);
    } else {
      var k :| 0 <= k < |c.decisions| && Spoken(c.decisions[k], s);
      assert c.decisions[k] in c.decisions;
    }
  }

  // ---- When an alarm is due ----

  /** The history calls for a page that says the subject went down: a first one, or one in place of a lost sender. */
  ghost predicate AlarmDue(cfg: Config, t: seq<Mark>, alive: seq<Name>, now: Time) {
    && Believed(t) != Bouncing
    && if CommittedIn(t) == Down then LastSender(t).Some? && LastSender(t).value !in alive
       else |Recent(CommitTimes(t) + [now])| < FLAP_COUNT && !Waits(cfg, t, Down, now)
  }

  lemma CalledAlarm(cfg: Config, s: Subject, t: seq<Mark>, cur: State, alive: seq<Name>, now: Time, self: Name)
    ensures Announces(Called(cfg, s, t, cur, alive, now), WentDown, self)
       <==> cur == Down && AlarmDue(cfg, t, alive, now) && self == Elected(cfg.score, s, alive)
  {
  }

  /** A lantern sends an alarm at a call exactly if the subject is called down, the alarm is due, and it is elected. */
  lemma AlarmIsSentIff(cfg: Config, self: Name, calls: seq<Call>, s: Subject, i: nat)
    requires WellFed(calls, s) && i < |calls|
    ensures Event(WentDown, s) in SentAt(cfg, self, calls, i)
       <==> PastWarmup(cfg, calls, i) && CalledDown(calls[i], s)
            && AlarmDue(cfg, Past(cfg, calls, s, i), calls[i].alive, calls[i].now)
            && self == Elected(cfg.score, s, calls[i].alive)
  {
    var c, t, log := calls[i], Past(cfg, calls, s, i), LogAt(cfg, calls, i);
    if Event(WentDown, s) in SentAt(cfg, self, calls, i) {
      SendersSpeak(self, log, WentDown, s);
      var m :| m in TraceOf(log, s) && Announces(m, WentDown, self);
      SilentMarks(cfg, calls, s, i, m);
      var d :| d in c.decisions && Spoken(d, s);
      SpokenMark(cfg, calls, s, i, d);
      CalledAlarm(cfg, s, t, d.state, c.alive, c.now, self);
    }
    if PastWarmup(cfg, calls, i) && CalledDown(c, s) {
      var d :| d in c.decisions && Spoken(d, s) && d.state == Down;
      SpokenMark(cfg, calls, s, i, d);
      CalledAlarm(cfg, s, t, Down, c.alive, c.now, self);
      if AlarmDue(cfg, t, c.alive, c.now) && self == Elected(cfg.score, s, c.alive) {
        SpeakersSend(self, log, s, TraceOf(log, s)[0], WentDown);
      }
    }
  }

  lemma PastGrows(cfg: Config, calls: seq<Call>, s: Subject, i: nat)
    requires i < |calls|
    ensures Past(cfg, calls, s, i + 1) == Past(cfg, calls, s, i) + TraceOf(LogAt(cfg, calls, i), s)
  {
    assert calls[..i + 1][..i] == calls[..i];
    TraceJoins(Run(cfg, calls[..i]).1, LogAt(cfg, calls, i), s);
  }

  lemma PastCommitted(cfg: Config, calls: seq<Call>, s: Subject, i: nat)
    requires WellFed(calls, s) && i <= |calls|
    ensures Life(cfg, s, calls[..i]).row.Committed() == CommittedIn(Past(cfg, calls, s, i))
  {
    RunIsLives(cfg, calls[..i], s);
    LifeSound(cfg, s, calls[..i], if i == 0 then 0 else calls[i - 1].now);
  }

  /** The committed state after a call is what its mark says. */
  lemma CommitShows(cfg: Config, calls: seq<Call>, s: Subject, i: nat, d: Decision)
    requires WellFed(calls, s) && i < |calls| && PastWarmup(cfg, calls, i)
    requires d in calls[i].decisions && Spoken(d, s)
    ensures
      var m := Called(cfg, s, Past(cfg, calls, s, i), d.state, calls[i].alive, calls[i].now);
      Life(cfg, s, calls[..i] + [calls[i]]).row.Committed() == CommittedIn(Past(cfg, calls, s, i) + [m])
  {
    SpokenMark(cfg, calls, s, i, d);
    PastGrows(cfg, calls, s, i);
    PrefixGrows(calls, i);
    PastCommitted(cfg, calls, s, i + 1);
  }

  lemma CalledCommits(cfg: Config, s: Subject, t: seq<Mark>, alive: seq<Name>, now: Time)
    requires CommittedIn(t) != Down
    ensures CommittedIn(t + [Called(cfg, s, t, Down, alive, now)]) == Down <==> !Waits(cfg, t, Down, now)
  {
    var m := Called(cfg, s, t, Down, alive, now);
    assert Init(t + [m]) == t;
  }

  /** Until it is committed, a Down waits exactly as long as it has not lasted the delay. */
  lemma WaitsIff(cfg: Config, calls: seq<Call>, s: Subject, i: nat)
    requires WellFed(calls, s) && i < |calls| && PastWarmup(cfg, calls, i) && CalledDown(calls[i], s)
    requires CommittedIn(Past(cfg, calls, s, i)) != Down
    ensures Waits(cfg, Past(cfg, calls, s, i), Down, calls[i].now) <==> !Lasted(cfg, calls[..i], calls[i], s)
  {
    var c, t := calls[i], Past(cfg, calls, s, i);
    var d :| d in c.decisions && Spoken(d, s) && d.state == Down;
    WellFedBefore(calls, s, i);
    PastCommitted(cfg, calls, s, i);
    CommitsIff(cfg, calls[..i], c, s);
    CommitShows(cfg, calls, s, i, d);
    CalledCommits(cfg, s, t, c.alive, c.now);
  }

  /**
   From what was said alone: at call `i` the subject is called down and not bouncing, and either the down has now
   lasted the delay without making the subject bounce, or the alarm stands already and whoever sent it is gone.
   */
  ghost predicate AlarmGoesOut(cfg: Config, calls: seq<Call>, s: Subject, i: nat)
    requires i < |calls|
  {
    var c, t := calls[i], Past(cfg, calls, s, i);
    && PastWarmup(cfg, calls, i) && CalledDown(c, s) && Believed(t) != Bouncing
    && if CommittedIn(t) == Down then LastSender(t).Some? && LastSender(t).value !in c.alive
       else Lasted(cfg, calls[..i], c, s) && |Recent(CommitTimes(t) + [c.now])| < FLAP_COUNT
  }

  /** A lantern says that a subject went down if and only if that alarm goes out and it is elected. */
  lemma AlarmIsSentExactly(cfg: Config, self: Name, calls: seq<Call>, s: Subject, i: nat)
    requires WellFed(calls, s) && i < |calls|
    ensures Event(WentDown, s) in SentAt(cfg, self, calls, i)
       <==> self == Elected(cfg.score, s, calls[i].alive) && AlarmGoesOut(cfg, calls, s, i)
  {
    AlarmIsSentIff(cfg, self, calls, s, i);
    if PastWarmup(cfg, calls, i) && CalledDown(calls[i], s) && CommittedIn(Past(cfg, calls, s, i)) != Down {
      WaitsIff(cfg, calls, s, i);
    }
  }

  // ---- A down that is never denied ----

  predicate NeverRaised(t: seq<Mark>) {
    CommitTimes(t) == [] && Believed(t) == Calm(Up) && CommittedIn(t) == Up
  }

  ghost predicate Raised(t: seq<Mark>) {
    exists m, winner :: m in t && Announces(m, WentDown, winner)
  }

  lemma DownRaises(cfg: Config, s: Subject, t: seq<Mark>, alive: seq<Name>, now: Time)
    requires NeverRaised(t)
    ensures
      var m := Called(cfg, s, t, Down, alive, now);
      NeverRaised(t + [m]) || Announces(m, WentDown, Elected(cfg.score, s, alive))
  {
    var m := Called(cfg, s, t, Down, alive, now);
    assert Init(t + [m]) == t;
    assert CommitTimes(t) + [now] == [now] && [now][..0] == [];
    assert Within([now], now) == Within([], now) + [now];
  }

  lemma UnspokenMarks(cfg: Config, calls: seq<Call>, s: Subject, i: nat)
    requires WellFed(calls, s) && i < |calls| && forall d :: d in calls[i].decisions ==> !Spoken(d, s)
    ensures TraceOf(LogAt(cfg, calls, i), s) in {[], [Reset(calls[i].now)]}
  {
    var c, row := calls[i], Life(cfg, s, calls[..i]).row;
    CallMarks(cfg, calls, s, i);
    Unspoken(c.decisions, s);
    assert Feed(cfg, s, SweptRow(s, row, c).0, c.decisions, c.alive, c.now).1 == [];
    assert SweptRow(s, row, c).1 + [] == SweptRow(s, row, c).1;
  }

  /** What a call adds to a subject's past: an answer to what was said, an eviction, or nothing. */
  lemma PastSteps(cfg: Config, calls: seq<Call>, s: Subject, i: nat)
    requires WellFed(calls, s) && i < |calls|
    ensures
      var t, t', c := Past(cfg, calls, s, i), Past(cfg, calls, s, i + 1), calls[i];
      || t' == t || t' == t + [Reset(c.now)]
      || exists d :: d in c.decisions && Spoken(d, s) && t' == t + [Called(cfg, s, t, d.state, c.alive, c.now)]
  {
    var c, t := calls[i], Past(cfg, calls, s, i);
    PastGrows(cfg, calls, s, i);
    assert t + [] == t;
    if d :| d in c.decisions && Spoken(d, s) {
      if PastWarmup(cfg, calls, i) {
        SpokenMark(cfg, calls, s, i, d);
      } else {
        CallMarks(cfg, calls, s, i);
      }
    } else {
      UnspokenMarks(cfg, calls, s, i);
    }
  }

  lemma OneCallRaises(cfg: Config, calls: seq<Call>, s: Subject, i: nat)
    requires WellFed(calls, s) && i < |calls| && OnlyDown(calls[i], s) && NeverRaised(Past(cfg, calls, s, i))
    ensures NeverRaised(Past(cfg, calls, s, i + 1)) || Raised(Past(cfg, calls, s, i + 1))
  {
    var c, t, t' := calls[i], Past(cfg, calls, s, i), Past(cfg, calls, s, i + 1);
    PastSteps(cfg, calls, s, i);
    if d :| d in c.decisions && Spoken(d, s) && t' == t + [Called(cfg, s, t, d.state, c.alive, c.now)] {
      DownRaises(cfg, s, t, c.alive, c.now);
    }
  }

  lemma RaisedStays(cfg: Config, calls: seq<Call>, s: Subject, i: nat)
    requires i < |calls| && Raised(Past(cfg, calls, s, i))
    ensures Raised(Past(cfg, calls, s, i + 1))
  {
    PastGrows(cfg, calls, s, i);
    var m, winner :| m in Past(cfg, calls, s, i) && Announces(m, WentDown, winner);
    assert m in Past(cfg, calls, s, i + 1);
  }

  /** While nobody has said anything but down, an alarm has either never been raised or has been announced. */
  lemma {:induction false} OnlyDownRaises(cfg: Config, calls: seq<Call>, s: Subject, i: nat)
    requires WellFed(calls, s) && i <= |calls| && forall k :: 0 <= k < i ==> OnlyDown(calls[k], s)
    ensures NeverRaised(Past(cfg, calls, s, i)) || Raised(Past(cfg, calls, s, i))
  {
    if i > 0 {
      OnlyDownRaises(cfg, calls, s, i - 1);
      if Raised(Past(cfg, calls, s, i - 1)) {
        RaisedStays(cfg, calls, s, i - 1);
      } else {
        OneCallRaises(cfg, calls, s, i - 1);
      }
    }
  }

  /** Every call names the subject, calls it down, and says nothing else about it. */
  ghost predicate DeniedNever(calls: seq<Call>, s: Subject) {
    WellFed(calls, s) && forall i :: 0 <= i < |calls| ==> CalledDown(calls[i], s) && OnlyDown(calls[i], s)
  }

  lemma NeverDeniedIsDownFrom(cfg: Config, calls: seq<Call>, s: Subject, j: nat)
    requires DeniedNever(calls, s) && j < |calls| && PastWarmup(cfg, calls, j)
    ensures DownFrom(cfg, calls, s, j)
  {
    forall k | j <= k < |calls| ensures Fresh(calls, s, k) {
      CalledIsNamed(calls[k], s);
      assert Names(calls[k].decisions, s) && calls[k].now - calls[k].now <= 72 * HOUR;
    }
  }

  lemma NeverDeniedCommits(cfg: Config, calls: seq<Call>, c: Call, s: Subject, j: nat)
    requires DeniedNever(calls + [c], s) && j < |calls| && PastWarmup(cfg, calls + [c], j)
    requires c.now - (calls + [c])[j].now >= cfg.holdDown
    ensures Life(cfg, s, calls + [c]).row.Committed() == Down
  {
    var all := calls + [c];
    assert all[|calls|] == c;
    NeverDeniedIsDownFrom(cfg, all, s, j);
    LastingIsCommitted(cfg, calls, c, s, j);
  }

  /** Three calls, the warmup between the first two and the delay between the last, all down: the alarm is announced. */
  lemma ThreeDownsAreAnnounced(cfg: Config, calls: seq<Call>, s: Subject)
    requires |calls| == 3 && DeniedNever(calls, s)
    requires calls[1].now - calls[0].now >= cfg.warmup && calls[2].now - calls[1].now >= cfg.holdDown
    ensures Event(WentDown, s) in Announced(Run(cfg, calls).1)
  {
    assert calls == calls[..2] + [calls[2]] == calls[..3];
    OnlyDownRaises(cfg, calls, s, 3);
    NeverDeniedCommits(cfg, calls[..2], calls[2], s, 1);
    PastCommitted(cfg, calls, s, 3);
    var m, winner :| m in Past(cfg, calls, s, 3) && Announces(m, WentDown, winner);
    LivesAreAnnounced(Run(cfg, calls).1, s, m, WentDown, winner);
  }

  // ---- The fleet ----

  lemma {:induction false} SentHasEntry(self: Name, log: seq<Entry>, event: Event)
    requires event in SentBy(self, log)
    ensures exists e :: e in log && e.Judged? && e.subject == event.subject && e.mark.Step? && e.mark.page.Some?
                        && e.mark.page.value.winner == self
  {
    var rest, e := log[..|log| - 1], log[|log| - 1];
    if event in SentBy(self, rest) {
      SentHasEntry(self, rest, event);
    }
  }

  /** Whatever a lantern sends at a call, it was elected by that call's alive list. */
  lemma SendersAreElected(cfg: Config, self: Name, calls: seq<Call>, i: nat, event: Event)
    requires i < |calls| && event in SentAt(cfg, self, calls, i)
    ensures self == Elected(cfg.score, event.subject, calls[i].alive)
  {
    var m, c := Run(cfg, calls[..i]).0, calls[i];
    var b := Mentioned(m.book, c.decisions, c.now);
    JudgeAllElects(cfg, Without(b, Stale(b, c.now)), c.decisions, c.alive, c.now);
    SentHasEntry(self, LogAt(cfg, calls, i), event);
  }

  /**
   One voice at every flash: where the lanterns of a fleet believe the same names alive, a page goes out if and
   only if the elected lantern's own run sends it, whatever the others have seen, decided or announced.
   */
  lemma OnlyTheElectedSends(cfg: Config, fleet: seq<Name>, runs: seq<seq<Call>>, event: Event, alive: seq<Name>,
                            i: nat, k: nat)
    requires |runs| == |fleet| && Distinct(fleet) && "" !in alive
    requires forall n :: 0 <= n < |runs| ==> i < |runs[n]| && Elements(runs[n][i].alive) == Elements(alive)
    requires k < |fleet| && fleet[k] == Elected(cfg.score, event.subject, alive)
    ensures forall n :: 0 <= n < |fleet| && event in SentAt(cfg, fleet[n], runs[n], i) ==> n == k
  {
    forall n | 0 <= n < |fleet| && event in SentAt(cfg, fleet[n], runs[n], i) ensures n == k {
      SendersAreElected(cfg, fleet[n], runs[n], i, event);
      ElectionIsASetFunction(cfg.score, event.subject, alive, runs[n][i].alive);
    }
  }

  /** Every page about the subject names this winner. */
  ghost predicate OneWinner(log: seq<Entry>, s: Subject, winner: Name) {
    forall e, p :: e in log && HasPage(e, p) && e.subject == s ==> p.winner == winner
  }

  lemma {:induction false} WinnerSendsAll(log: seq<Entry>, event: Event, winner: Name)
    requires OneWinner(log, event.subject, winner)
    ensures multiset(SentBy(winner, log))[event] == Announced(log)[event]
  {
    if log != [] {
      var rest, e := log[..|log| - 1], log[|log| - 1];
      assert log == rest + [e];
      assert e in log && forall x :: x in rest ==> x in log;
      WinnerSendsAll(rest, event, winner);
      if e.Judged? && e.mark.Step? && e.mark.page.Some? {
        assert HasPage(e, e.mark.page.value);
      }
      var before, now := SentBy(winner, rest), Sends(winner, e);
      assert multiset(before + now) == multiset(before) + multiset(now);
    }
  }

  lemma {:induction false} OthersSendNothing(log: seq<Entry>, event: Event, winner: Name, self: Name)
    requires OneWinner(log, event.subject, winner) && self != winner
    ensures multiset(SentBy(self, log))[event] == 0
  {
    if event in SentBy(self, log) {
      SentHasEntry(self, log, event);
      var e :| e in log && e.Judged? && e.subject == event.subject && e.mark.Step? && e.mark.page.Some?
               && e.mark.page.value.winner == self;
      assert HasPage(e, e.mark.page.value);
    }
  }

  lemma {:induction false} NobodySends(fleet: seq<Name>, logs: seq<seq<Entry>>, event: Event)
    requires |logs| == |fleet|
    requires forall n :: 0 <= n < |fleet| ==> multiset(SentBy(fleet[n], logs[n]))[event] == 0
    ensures AllSent(fleet, logs)[event] == 0
  {
    if fleet != [] {
      NobodySends(fleet[1..], logs[1..], event);
    }
  }

  lemma {:induction false} OneSenderCounts(fleet: seq<Name>, logs: seq<seq<Entry>>, event: Event, k: nat)
    requires |logs| == |fleet| && k < |fleet|
    requires forall n :: 0 <= n < |fleet| && n != k ==> multiset(SentBy(fleet[n], logs[n]))[event] == 0
    ensures AllSent(fleet, logs)[event] == multiset(SentBy(fleet[k], logs[k]))[event]
  {
    if k == 0 {
      NobodySends(fleet[1..], logs[1..], event);
    } else {
      forall n | 0 <= n < |fleet| - 1 && n != k - 1 ensures multiset(SentBy(fleet[1..][n], logs[1..][n]))[event] == 0 {
        assert fleet[1..][n] == fleet[n + 1] && logs[1..][n] == logs[n + 1];
      }
      OneSenderCounts(fleet[1..], logs[1..], event, k - 1);
    }
  }

  lemma SteadyWinner(cfg: Config, calls: seq<Call>, s: Subject, alive: seq<Name>)
    requires alive != [] && "" !in alive && forall c :: c in calls ==> Elements(c.alive) == Elements(alive)
    ensures OneWinner(Run(cfg, calls).1, s, Elected(cfg.score, s, alive))
  {
    ElementsEmpty(alive);
    forall c | c in calls ensures c.alive != [] && "" !in c.alive {
      ElementsEmpty(c.alive);
      assert "" !in Elements(alive);
    }
    var log := Run(cfg, calls).1;
    forall e, p | e in log && HasPage(e, p) && e.subject == s ensures p.winner == Elected(cfg.score, s, alive) {
      WinnersAreAlive(cfg, calls, e, p);
      var c :| c in calls && e.mark.alive == c.alive;
      ElectionIsASetFunction(cfg.score, s, alive, c.alive);
    }
  }

  /**
   One voice per subject: while the same lanterns are believed alive throughout, what a fleet sends about a
   subject is, page for page, what the one elected lantern announced about it, whatever the clocks, stores,
   rosters and address books of all the others.
   */
  lemma OneVoicePerSubject(cfg: Config, fleet: seq<Name>, runs: seq<seq<Call>>, logs: seq<seq<Entry>>, event: Event,
                           alive: seq<Name>, k: nat)
    requires |runs| == |logs| == |fleet| && Distinct(fleet) && alive != [] && "" !in alive
    requires forall n :: 0 <= n < |runs| ==> logs[n] == Run(cfg, runs[n]).1
    requires forall n, c :: 0 <= n < |runs| && c in runs[n] ==> Elements(c.alive) == Elements(alive)
    requires k < |fleet| && fleet[k] == Elected(cfg.score, event.subject, alive)
    ensures AllSent(fleet, logs)[event] == Announced(logs[k])[event]
  {
    forall n | 0 <= n < |fleet| ensures OneWinner(logs[n], event.subject, fleet[k]) {
      SteadyWinner(cfg, runs[n], event.subject, alive);
    }
    forall n | 0 <= n < |fleet| && n != k ensures multiset(SentBy(fleet[n], logs[n]))[event] == 0 {
      OthersSendNothing(logs[n], event, fleet[k], fleet[n]);
    }
    OneSenderCounts(fleet, logs, event, k);
    WinnerSendsAll(logs[k], event, fleet[k]);
  }
}
