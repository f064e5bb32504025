/**
 internal/notify/notify.go, `PushOnly`: of a critical subject a phone hears that it went down, recovered, is flapping
 or settled, and nothing else. What that is enough for, and exactly when it is not.
 */
module Pushes {
  import opened Base
  import opened Quorum
  import opened Tracker
  import opened TrackerLife
  import opened Paging
  import opened HoldDown
  import opened Alarms
  import opened Pages

  // ---- The filter ----

  predicate Critical(marked: set<Subject>, s: Subject) {
    s in marked || s.check == "lantern" || s.check == "blackout"
  }

  predicate Interrupts(kind: Kind) {
    match kind
    case WentDown | Recovered | Flapping | Settled(_) => true
    case Warns | Cleared => false
  }

  /** What goes on to the phones of everything a lantern sends. */
  function Pushed(marked: set<Subject>, sent: seq<Event>): seq<Event> {
    if sent == [] then []
    else
      var rest, e := Pushed(marked, sent[..|sent| - 1]), sent[|sent| - 1];
      if Critical(marked, e.subject) && Interrupts(e.kind) then rest + [e] else rest
  }

  /** Phones get every page of a critical subject that it is down, back from down, flapping or settled, and no other. */
  lemma {:induction false} PushedExactly(marked: set<Subject>, sent: seq<Event>, e: Event)
    ensures multiset(Pushed(marked, sent))[e]
         == if (e.subject in marked || e.subject.check in {"lantern", "blackout"})
               && (e.kind in {WentDown, Recovered, Flapping} || e.kind.Settled?)
            then multiset(sent)[e] else 0
  {
    if sent != [] {
      var rest, last := sent[..|sent| - 1], sent[|sent| - 1];
      assert sent == rest + [last];
      PushedExactly(marked, rest, e);
    }
  }

  // ---- What a phone knows ----

  /** The mark at `i` is the last a phone hears of, with no eviction since. */
  ghost predicate LastPush(t: seq<Mark>, i: int) {
    && 0 <= i < |t| && t[i].Step? && t[i].page.Some? && Interrupts(t[i].page.value.kind)
    && forall m :: i < m < |t| ==> t[m].Step? && (t[m].page.None? || !Interrupts(t[m].page.value.kind))
  }

  predicate SaysDown(m: Mark) {
    m.Step? && m.page.Some? && m.page.value.kind in {WentDown, Settled(Down)}
  }

  /** As far as a phone knows, the subject is down. */
  ghost predicate PhoneSaysDown(t: seq<Mark>) {
    exists i :: LastPush(t, i) && SaysDown(t[i])
  }

  /** An alarm the phones were told of has since turned into a warning. */
  ghost predicate EasedToWarning(t: seq<Mark>) {
    exists i, j :: LastPush(t, i) && SaysDown(t[i]) && i < j < |t| && t[j].Step? && t[j].page.Some?
                   && t[j].page.value.kind == Warns
  }

  lemma {:induction false} BeliefIsLastPage(t: seq<Mark>, i: int)
    requires LastPage(t, i)
    ensures Believed(t) == Told(t[i].page.value.kind)
  {
    if i < |t| - 1 {
      BeliefIsLastPage(Init(t), i);
    }
  }

  lemma {:induction false} BeliefHasAPage(t: seq<Mark>)
    ensures Believed(t) == Calm(Up) || exists i :: LastPage(t, i)
  {
    if t != [] && t[|t| - 1].Step? {
      if t[|t| - 1].page.Some? {
        assert LastPage(t, |t| - 1);
      } else {
        BeliefHasAPage(Init(t));
        if i :| LastPage(Init(t), i) {
          assert LastPage(t, i);
        }
      }
    }
  }

  /** Everything was done as the history before it calls for. */
  ghost predicate AllInOrder(cfg: Config, s: Subject, t: seq<Mark>) {
    forall k :: 0 <= k < |t| ==> InOrder(cfg, s, t, k)
  }

  lemma BeliefFollows(cfg: Config, s: Subject, t: seq<Mark>, m: Mark)
    requires Believed(t) == Bouncing || Believed(t) == Calm(CommittedIn(t))
    requires m.Step? ==> m == Called(cfg, s, t, m.cur, m.alive, m.at)
    ensures Believed(t + [m]) == Bouncing || Believed(t + [m]) == Calm(CommittedIn(t + [m]))
  {
    assert Init(t + [m]) == t;
  }

  /** In order, a history says at every point what is committed, unless it bounces. */
  lemma {:induction false} HistoryIsBelieved(cfg: Config, s: Subject, t: seq<Mark>)
    requires AllInOrder(cfg, s, t)
    ensures Believed(t) == Bouncing || Believed(t) == Calm(CommittedIn(t))
  {
    if t != [] {
      var n, rest := |t| - 1, Init(t);
      forall k | 0 <= k < n ensures InOrder(cfg, s, rest, k) {
        assert InOrder(cfg, s, t, k) && rest[..k] == t[..k];
      }
      HistoryIsBelieved(cfg, s, rest);
      assert InOrder(cfg, s, t, n) && t[..n] == rest;
      BeliefFollows(cfg, s, rest, t[n]);
      assert rest + [t[n]] == t;
    }
  }

  lemma RunIsInOrder(cfg: Config, calls: seq<Call>, s: Subject)
    requires Ordered(calls)
    ensures AllInOrder(cfg, s, TraceOf(Run(cfg, calls).1, s))
  {
    var t := TraceOf(Run(cfg, calls).1, s);
    forall k | 0 <= k < |t| ensures InOrder(cfg, s, t, k) {
      HistoryDecides(cfg, calls, s, k);
    }
  }

  lemma AlarmIsPushed(cfg: Config, s: Subject, t: seq<Mark>)
    requires AllInOrder(cfg, s, t)
    requires Stands(t, Down) && !Bounces(t)
    ensures PhoneSaysDown(t)
  {
    StandsIs(t, Down);
    BouncesIs(t);
    HistoryIsBelieved(cfg, s, t);
    BeliefHasAPage(t);
    var i :| LastPage(t, i);
    BeliefIsLastPage(t, i);
    assert LastPush(t, i);
  }

  /** No outage is kept from the phones: while a subject stands Down and does not bounce, they know it as down. */
  lemma NoAlarmIsMissed(cfg: Config, calls: seq<Call>, s: Subject)
    requires Ordered(calls)
    requires Stands(TraceOf(Run(cfg, calls).1, s), Down) && !Bounces(TraceOf(Run(cfg, calls).1, s))
    ensures PhoneSaysDown(TraceOf(Run(cfg, calls).1, s))
  {
    RunIsInOrder(cfg, calls, s);
    AlarmIsPushed(cfg, s, TraceOf(Run(cfg, calls).1, s));
  }

  lemma FirstPageAfter(t: seq<Mark>, i: int, m: int) returns (j: int)
    requires LastPush(t, i) && i < m < |t| && t[m].page.Some?
    ensures i < j <= m && t[j].page.Some? && LastPage(t[..j], i)
  {
    j := i + 1;
    while t[j].page.None?
      invariant i < j <= m && LastPage(t[..j], i)
      decreases m - j
    {
      j := j + 1;
    }
  }

  /** What is said next of an alarm, if not to the phones, is that it has become a warning. */
  lemma NextIsAWarning(cfg: Config, s: Subject, t: seq<Mark>, i: int, j: int)
    requires AllInOrder(cfg, s, t)
    requires LastPush(t, i) && SaysDown(t[i]) && i < j < |t| && t[j].page.Some? && LastPage(t[..j], i)
    ensures t[j].page.value.kind == Warns
  {
    var before := t[..j];
    forall k | 0 <= k < j ensures InOrder(cfg, s, before, k) {
      assert InOrder(cfg, s, t, k) && before[..k] == t[..k];
    }
    HistoryIsBelieved(cfg, s, before);
    BeliefIsLastPage(before, i);
    assert InOrder(cfg, s, t, j);
  }

  lemma LeftStandingWasEased(cfg: Config, s: Subject, t: seq<Mark>)
    requires AllInOrder(cfg, s, t)
    requires PhoneSaysDown(t) && !Stands(t, Down)
    ensures EasedToWarning(t)
  {
    var i :| LastPush(t, i) && SaysDown(t[i]);
    StandsIs(t, Down);
    HistoryIsBelieved(cfg, s, t);
    if LastPage(t, i) {
      BeliefIsLastPage(t, i);
    } else {
      var m :| i < m < |t| && t[m].page.Some?;
      var j := FirstPageAfter(t, i, m);
      NextIsAWarning(cfg, s, t, i, j);
    }
  }

  lemma EasedIsLeftStanding(cfg: Config, s: Subject, t: seq<Mark>)
    requires AllInOrder(cfg, s, t) && EasedToWarning(t)
    ensures PhoneSaysDown(t) && !Stands(t, Down)
  {
    var i, j :| LastPush(t, i) && SaysDown(t[i]) && i < j < |t| && t[j].Step? && t[j].page.Some?
                && t[j].page.value.kind == Warns;
    StandsIs(t, Down);
    HistoryIsBelieved(cfg, s, t);
    BeliefHasAPage(t);
    if p :| LastPage(t, p) {
      BeliefIsLastPage(t, p);
      assert p >= j;
    }
  }

  /**
   Not every all-clear reaches the phones, and this is exactly when: they are left believing that a subject is down
   that is not if and only if what they last heard of it is that it is down, and the outage has since turned into a
   warning. Neither the warning nor its clearing is pushed.
   */
  lemma AlarmIsLeftStandingIff(cfg: Config, calls: seq<Call>, s: Subject)
    requires Ordered(calls)
    ensures
      var t := TraceOf(Run(cfg, calls).1, s);
      PhoneSaysDown(t) && !Stands(t, Down) <==> EasedToWarning(t)
  {
    var t := TraceOf(Run(cfg, calls).1, s);
    RunIsInOrder(cfg, calls, s);
    if PhoneSaysDown(t) && !Stands(t, Down) {
      LeftStandingWasEased(cfg, s, t);
    }
    if EasedToWarning(t) {
      EasedIsLeftStanding(cfg, s, t);
    }
  }

  // ---- Such a run ----

  predicate DownAndSaid(t: seq<Mark>) {
    CommittedIn(t) == Down && Believed(t) == Calm(Down)
  }

  lemma DownStaysSaid(cfg: Config, s: Subject, t: seq<Mark>, alive: seq<Name>, now: Time)
    requires NeverRaised(t) || DownAndSaid(t)
    ensures
      var t' := t + [Called(cfg, s, t, Down, alive, now)];
      NeverRaised(t') || DownAndSaid(t')
  {
    var m := Called(cfg, s, t, Down, alive, now);
    assert Init(t + [m]) == t;
    if NeverRaised(t) {
      DownRaises(cfg, s, t, alive, now);
    }
  }

  lemma {:induction false} DownsAreSaid(cfg: Config, calls: seq<Call>, s: Subject, i: nat)
    requires WellFed(calls, s) && i <= |calls| && forall k :: 0 <= k < i ==> OnlyDown(calls[k], s)
    ensures NeverRaised(Past(cfg, calls, s, i)) || DownAndSaid(Past(cfg, calls, s, i))
  {
    if i > 0 {
      var c, t, t' := calls[i - 1], Past(cfg, calls, s, i - 1), Past(cfg, calls, s, i);
      DownsAreSaid(cfg, calls, s, i - 1);
      PastSteps(cfg, calls, s, i - 1);
      if d :| d in c.decisions && Spoken(d, s) && t' == t + [Called(cfg, s, t, d.state, c.alive, c.now)] {
        DownStaysSaid(cfg, s, t, c.alive, c.now);
      }
    }
  }

  lemma NotCrowdedLater(t: seq<Mark>, clock: Time, now: Time)
    requires InTurn(t, clock) && now - clock > 600 * SECOND
    ensures |Recent(CommitTimes(t) + [now])| < FLAP_COUNT
  {
    CommitTimesSorted(t, clock);
    CrowdedIs(t, now);
  }

  /** A warning long after an alarm, and its clearing long after that, are announced as such. */
  lemma EasesAndClears(cfg: Config, s: Subject, t: seq<Mark>, clock: Time, alive: seq<Name>, eased: Time, now: Time)
    requires DownAndSaid(t) && InTurn(t, clock) && eased - clock > 600 * SECOND && now - eased > 600 * SECOND
    ensures
      var m := Called(cfg, s, t, Warn, alive, eased);
      var n := Called(cfg, s, t + [m], Up, alive, now);
      && Says(m, Warns, false) && Says(n, Cleared, false) && CommittedIn(t + [m] + [n]) == Up
  {
    var m := Called(cfg, s, t, Warn, alive, eased);
    var n := Called(cfg, s, t + [m], Up, alive, now);
    NotCrowdedLater(t, clock, eased);
    assert Init(t + [m]) == t && Init(t + [m] + [n]) == t + [m];
    NotCrowdedLater(t + [m], eased, now);
  }

  /** ... but no phone hears of either. */
  lemma EasedUnheard(t: seq<Mark>, m: Mark, n: Mark)
    requires DownAndSaid(t) && m.Step? && n.Step? && Says(m, Warns, false) && Says(n, Cleared, false)
    ensures PhoneSaysDown(t + [m] + [n])
  {
    BeliefHasAPage(t);
    var i :| LastPage(t, i);
    BeliefIsLastPage(t, i);
    assert LastPush(t + [m] + [n], i) && SaysDown((t + [m] + [n])[i]);
  }

  lemma EasesFrom(cfg: Config, s: Subject, t: seq<Mark>, clock: Time, alive: seq<Name>, eased: Time, now: Time)
    requires DownAndSaid(t) && InTurn(t, clock) && eased - clock > 600 * SECOND && now - eased > 600 * SECOND
    ensures
      var t' := t + [Called(cfg, s, t, Warn, alive, eased)];
      var t'' := t' + [Called(cfg, s, t', Up, alive, now)];
      PhoneSaysDown(t'') && Stands(t'', Up)
  {
    var m := Called(cfg, s, t, Warn, alive, eased);
    var n := Called(cfg, s, t + [m], Up, alive, now);
    EasesAndClears(cfg, s, t, clock, alive, eased, now);
    EasedUnheard(t, m, n);
    StandsIs(t + [m] + [n], Up);
  }

  function Word(s: Subject, state: State): Decision {
    Decision(s.target, s.check, state, "", false, 1, 1, 1, 1)
  }

  /** A subject called down at once, when the warmup is over and when the delay is; later warned about; later up. */
  function Easing(cfg: Config, s: Subject, alive: seq<Name>): seq<Call> {
    var warm := 1 + Max(cfg.warmup, 0);
    var due := warm + Max(cfg.holdDown, 0);
    [Call([Word(s, Down)], alive, 1), Call([Word(s, Down)], alive, warm), Call([Word(s, Down)], alive, due),
     Call([Word(s, Warn)], alive, due + 601 * SECOND), Call([Word(s, Up)], alive, due + 1202 * SECOND)]
  }

  /** Each call says one thing of the subject, the calls come in order, and the last two after more than ten minutes. */
  ghost predicate Eases(cfg: Config, s: Subject, calls: seq<Call>) {
    && |calls| == 5
    && (forall i :: 0 <= i < 5 ==>
          calls[i].decisions == [Word(s, if i < 3 then Down else if i == 3 then Warn else Up)])
    && ZERO_TIME < calls[0].now && calls[0].now <= calls[1].now <= calls[2].now
    && calls[1].now - calls[0].now >= cfg.warmup && calls[2].now - calls[1].now >= cfg.holdDown
    && calls[3].now - calls[2].now > 600 * SECOND && calls[4].now - calls[3].now > 600 * SECOND
  }

  lemma EasingEases(cfg: Config, s: Subject, alive: seq<Name>)
    ensures Eases(cfg, s, Easing(cfg, s, alive))
  {
  }

  lemma EasesIsWellFed(cfg: Config, s: Subject, calls: seq<Call>, i: nat)
    requires Eases(cfg, s, calls) && i < 5
    ensures WellFed(calls, s)
    ensures
      var d := Word(s, if i < 3 then Down else if i == 3 then Warn else Up);
      d in calls[i].decisions && Spoken(d, s) && (i > 0 ==> PastWarmup(cfg, calls, i))
  {
  }

  lemma OneWordMark(cfg: Config, s: Subject, calls: seq<Call>, i: nat, d: Decision)
    requires WellFed(calls, s) && i < |calls| && PastWarmup(cfg, calls, i)
    requires d in calls[i].decisions && Spoken(d, s)
    ensures
      var t := Past(cfg, calls, s, i);
      Past(cfg, calls, s, i + 1) == t + [Called(cfg, s, t, d.state, calls[i].alive, calls[i].now)]
  {
    PastGrows(cfg, calls, s, i);
    SpokenMark(cfg, calls, s, i, d);
  }

  lemma AlarmIsRaised(cfg: Config, s: Subject, calls: seq<Call>)
    requires Eases(cfg, s, calls)
    ensures DownAndSaid(Past(cfg, calls, s, 3)) && InTurn(Past(cfg, calls, s, 3), calls[2].now)
  {
    var three := calls[..3];
    EasesIsWellFed(cfg, s, calls, 0);
    EasesIsWellFed(cfg, s, calls, 1);
    forall i | 0 <= i < 3 ensures CalledDown(calls[i], s) && OnlyDown(calls[i], s) {
      assert Word(s, Down) in calls[i].decisions && Spoken(Word(s, Down), s);
    }
    DownsAreSaid(cfg, calls, s, 3);
    assert three == calls[..2] + [calls[2]];
    assert DeniedNever(three, s);
    NeverDeniedCommits(cfg, calls[..2], calls[2], s, 1);
    PastCommitted(cfg, calls, s, 3);
    RunIsLives(cfg, three, s);
    LifeInTurn(cfg, s, three, calls[2].now);
  }

  lemma LastTwoMarks(cfg: Config, s: Subject, calls: seq<Call>)
    requires Eases(cfg, s, calls) && calls[3].alive == calls[4].alive
    ensures
      var t, alive := Past(cfg, calls, s, 3), calls[3].alive;
      var t' := t + [Called(cfg, s, t, Warn, alive, calls[3].now)];
      Past(cfg, calls, s, 5) == t' + [Called(cfg, s, t', Up, alive, calls[4].now)]
  {
    EasesIsWellFed(cfg, s, calls, 3);
    EasesIsWellFed(cfg, s, calls, 4);
    OneWordMark(cfg, s, calls, 3, Word(s, Warn));
    OneWordMark(cfg, s, calls, 4, Word(s, Up));
  }

  lemma EasesUnheard(cfg: Config, s: Subject, calls: seq<Call>)
    requires Eases(cfg, s, calls) && calls[3].alive == calls[4].alive
    ensures
      var t := TraceOf(Run(cfg, calls).1, s);
      PhoneSaysDown(t) && Stands(t, Up)
  {
    AlarmIsRaised(cfg, s, calls);
    LastTwoMarks(cfg, s, calls);
    EasesFrom(cfg, s, Past(cfg, calls, s, 3), calls[2].now, calls[3].alive, calls[3].now, calls[4].now);
    assert calls[..5] == calls;
  }

  /**
   The all-clear no phone hears, for every warmup and delay: a subject goes down for long enough, later is only
   warned about, and later still is up. The phones heard that it is down, and nothing since.
   */
  lemma TheAllClearNobodyHears(cfg: Config, s: Subject, alive: seq<Name>)
    ensures
      var t := TraceOf(Run(cfg, Easing(cfg, s, alive)).1, s);
      PhoneSaysDown(t) && Stands(t, Up)
  {
    EasingEases(cfg, s, alive);
    EasesUnheard(cfg, s, Easing(cfg, s, alive));
  }
}
