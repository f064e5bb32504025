/**
 No page without lasting agreement: the alert delay of internal/notify/notify.go joined with the quorum
 rule and the status a lantern computes from its own store.
 */
module HoldDown {
  import opened Base
  import opened Quorum
  import opened Tracker
  import opened TrackerLife
  import Paging

  /** A decision somebody voted in. */
  predicate Spoken(d: Decision, s: Subject) {
    d.About() == s && d.voters != 0
  }

  predicate Once(ds: seq<Decision>, s: Subject) {
    forall i, j :: 0 <= i < j < |ds| ==> ds[i].About() != s || ds[j].About() != s
  }

  /** Whoever spoke about `s` in this call called it down. */
  predicate OnlyDown(c: Call, s: Subject) {
    forall d :: d in c.decisions && Spoken(d, s) ==> d.state == Down
  }

  predicate CalledDown(c: Call, s: Subject) {
    exists d :: d in c.decisions && Spoken(d, s) && d.state == Down
  }

  lemma {:induction false} Unspoken(ds: seq<Decision>, s: Subject)
    requires forall i :: 0 <= i < |ds| ==> !Spoken(ds[i], s)
    ensures StatesOf(ds, s) == []
  {
    if ds != [] {
      assert !Spoken(ds[|ds| - 1], s);
      Unspoken(ds[..|ds| - 1], s);
    }
  }

  lemma {:induction false} SoleState(ds: seq<Decision>, s: Subject, i: nat)
    requires Once(ds, s) && i < |ds| && Spoken(ds[i], s)
    ensures StatesOf(ds, s) == [ds[i].state]
  {
    var last := |ds| - 1;
    if i == last {
      Unspoken(ds[..last], s);
    } else {
      assert ds[last].About() != s;
      SoleState(ds[..last], s, i);
    }
  }

  lemma SoleDecision(cfg: Config, s: Subject, r: Row, ds: seq<Decision>, d: Decision, alive: seq<Name>, now: Time)
    requires Once(ds, s) && d in ds && Spoken(d, s)
    ensures Feed(cfg, s, r, ds, alive, now).0 == StepRow(cfg, s, r, d.state, alive, now).0
  {
    var i :| 0 <= i < |ds| && ds[i] == d;
    SoleState(ds, s, i);
    FedOne(cfg, s, r, d.state, alive, now);
  }

  lemma OnlySpeaker(ds: seq<Decision>, s: Subject, d: Decision, e: Decision)
    requires Once(ds, s) && d in ds && Spoken(d, s) && e in ds && Spoken(e, s)
    ensures d == e
  {
    var i :| 0 <= i < |ds| && ds[i] == d;
    var j :| 0 <= j < |ds| && ds[j] == e;
  }

  /** What one decision does to the hold-down clock and to the committed state. */
  lemma StepHolds(cfg: Config, s: Subject, r: Row, cur: State, alive: seq<Name>, now: Time)
    requires cfg.holdDown > 0 && ZERO_TIME < now
    ensures
      var r' := StepRow(cfg, s, r, cur, alive, now).0;
      && (cur != Down ==> r'.Since() == ZERO_TIME && r'.Committed() != Down)
      && (cur == Down && r.Committed() != Down ==>
            && (r'.Committed() == Down <==> now - DownStart(r, now) >= cfg.holdDown)
            && r'.Since() == if r'.Committed() == Down then ZERO_TIME else DownStart(r, now))
      && (cur == Down && r.Committed() == Down ==> r'.Committed() == Down && r'.Since() == r.Since())
  {
  }

  lemma SweepHolds(s: Subject, r: Row, c: Call)
    ensures
      var r' := SweptRow(s, r, c).0;
      r' == EMPTY_ROW || (r'.Since() == r.Since() && r'.Committed() == r.Committed())
    ensures Names(c.decisions, s) ==> SweptRow(s, r, c).0 == r.(lastSeen := Some(c.now))
  {
  }

  lemma NamedIn(ds: seq<Decision>, d: Decision, s: Subject)
    requires d in ds && d.About() == s
    ensures Names(ds, s)
  {
    var i :| 0 <= i < |ds| && ds[i] == d;
  }

  /** What one judged call does to the hold-down clock and to the committed state. */
  lemma CallOnRow(cfg: Config, s: Subject, r: Row, c: Call)
    requires cfg.holdDown > 0 && ZERO_TIME < c.now && Once(c.decisions, s)
    ensures
      var r' := Feed(cfg, s, SweptRow(s, r, c).0, c.decisions, c.alive, c.now).0;
      && (r'.Since() != ZERO_TIME ==>
            OnlyDown(c, s) && (r'.Since() == r.Since() || (r'.Since() == c.now && CalledDown(c, s))))
      && (r.Committed() != Down && r'.Committed() == Down ==>
            OnlyDown(c, s) && CalledDown(c, s) && c.now - DownStart(r, c.now) >= cfg.holdDown)
  {
    var r1 := SweptRow(s, r, c).0;
    SweepHolds(s, r, c);
    if d :| d in c.decisions && Spoken(d, s) {
      NamedIn(c.decisions, d, s);
      SoleDecision(cfg, s, r1, c.decisions, d, c.alive, c.now);
      StepHolds(cfg, s, r1, d.state, c.alive, c.now);
      forall e | e in c.decisions && Spoken(e, s) ensures e.state == d.state {
        OnlySpeaker(c.decisions, s, d, e);
      }
    } else {
      Unspoken(c.decisions, s);
    }
  }

  /** When step `k` comes, the subject has been mentioned recently enough not to be forgotten. */
  ghost predicate Fresh(calls: seq<Call>, s: Subject, k: int) {
    && 0 <= k < |calls|
    && exists l :: 0 <= l <= k && Names(calls[l].decisions, s) && calls[k].now - calls[l].now <= 72 * HOUR
  }

  /**
   From step `j`, past the warmup, to the end: somebody called it down at `j`, nobody has called it anything
   else since, and it was never forgotten.
   */
  ghost predicate DownFrom(cfg: Config, calls: seq<Call>, s: Subject, j: int) {
    && 0 <= j < |calls| && CalledDown(calls[j], s) && calls[j].now - calls[0].now >= cfg.warmup
    && forall k :: j <= k < |calls| ==> OnlyDown(calls[k], s) && Fresh(calls, s, k)
  }

  predicate WellFed(calls: seq<Call>, s: Subject) {
    Ordered(calls) && forall i :: 0 <= i < |calls| ==> ZERO_TIME < calls[i].now && Once(calls[i].decisions, s)
  }

  lemma WellFedBefore(calls: seq<Call>, s: Subject, i: nat)
    requires WellFed(calls, s) && i < |calls|
    ensures WellFed(calls[..i], s) && WellFed(calls[..i] + [calls[i]], s)
  {
    assert forall k :: 0 <= k <= i ==> (calls[..i] + [calls[i]])[k] == calls[k];
  }

  /** The hold-down clock names a step since which the subject has been down without a break. */
  ghost predicate ClockHonest(cfg: Config, calls: seq<Call>, s: Subject) {
    var l := Life(cfg, s, calls);
    && (calls != [] ==> l.start == calls[0].now)
    && (l.row.Since() != ZERO_TIME ==> exists j :: DownFrom(cfg, calls, s, j) && calls[j].now == l.row.Since())
  }

  lemma FreshStays(calls: seq<Call>, c: Call, s: Subject, k: int)
    requires 0 <= k < |calls|
    ensures Fresh(calls, s, k) <==> Fresh(calls + [c], s, k)
  {
    var all := calls + [c];
    assert forall l :: 0 <= l <= k ==> all[l] == calls[l];
    if Fresh(calls, s, k) {
      var l :| 0 <= l <= k && Names(calls[l].decisions, s) && calls[k].now - calls[l].now <= 72 * HOUR;
      assert Names(all[l].decisions, s) && all[k].now - all[l].now <= 72 * HOUR;
    }
    if Fresh(all, s, k) {
      var l :| 0 <= l <= k && Names(all[l].decisions, s) && all[k].now - all[l].now <= 72 * HOUR;
      assert Names(calls[l].decisions, s) && calls[k].now - calls[l].now <= 72 * HOUR;
    }
  }

  lemma DownLonger(cfg: Config, calls: seq<Call>, c: Call, s: Subject, j: int)
    requires DownFrom(cfg, calls, s, j) && OnlyDown(c, s) && Fresh(calls + [c], s, |calls|)
    ensures DownFrom(cfg, calls + [c], s, j)
  {
    var all := calls + [c];
    forall k | j <= k < |all| ensures OnlyDown(all[k], s) && Fresh(all, s, k) {
      if k < |calls| {
        FreshStays(calls, c, s, k);
        assert OnlyDown(calls[k], s) && all[k] == calls[k];
      }
    }
  }

  lemma DownBefore(cfg: Config, calls: seq<Call>, c: Call, s: Subject, j: int)
    requires DownFrom(cfg, calls + [c], s, j)
    ensures j < |calls| ==> DownFrom(cfg, calls, s, j)
    ensures OnlyDown(c, s) && Fresh(calls + [c], s, |calls|)
  {
    var all := calls + [c];
    assert all[|calls|] == c && OnlyDown(all[|calls|], s);
    if j < |calls| {
      forall k | j <= k < |calls| ensures OnlyDown(calls[k], s) && Fresh(calls, s, k) {
        FreshStays(calls, c, s, k);
        assert OnlyDown(all[k], s) && all[k] == calls[k];
      }
      assert all[j] == calls[j] && all[0] == calls[0];
    }
  }

  /** Whatever the tracker still holds about a subject after the warmup was mentioned recently. */
  lemma HeldIsFresh(cfg: Config, calls: seq<Call>, s: Subject)
    requires calls != [] && Life(cfg, s, calls).row != EMPTY_ROW
    requires calls[|calls| - 1].now - Life(cfg, s, calls).start >= cfg.warmup
    ensures Fresh(calls, s, |calls| - 1)
  {
    Paging.MentionsAreHonest(cfg, calls, s);
    var seen := Life(cfg, s, calls).row.lastSeen.value;
    var l :| 0 <= l < |calls| && calls[l].now == seen && Names(calls[l].decisions, s);
  }

  lemma NewDown(cfg: Config, calls: seq<Call>, c: Call, s: Subject, was: Time, since: Time)
    requires was != ZERO_TIME ==> exists j :: DownFrom(cfg, calls, s, j) && calls[j].now == was
    requires OnlyDown(c, s) && Fresh(calls + [c], s, |calls|) && c.now - (calls + [c])[0].now >= cfg.warmup
    requires since != ZERO_TIME && (since == was || (since == c.now && CalledDown(c, s)))
    ensures exists j :: DownFrom(cfg, calls + [c], s, j) && (calls + [c])[j].now == since
  {
    var all := calls + [c];
    if since == was {
      var j :| DownFrom(cfg, calls, s, j) && calls[j].now == was;
      DownLonger(cfg, calls, c, s, j);
      assert all[j].now == since;
    } else {
      assert all[|calls|] == c;
      assert DownFrom(cfg, all, s, |calls|);
    }
  }

  /** An honest clock stays honest. */
  lemma ClockTicks(cfg: Config, calls: seq<Call>, c: Call, s: Subject)
    requires cfg.holdDown > 0 && WellFed(calls + [c], s) && ClockHonest(cfg, calls, s)
    ensures ClockHonest(cfg, calls + [c], s)
  {
    var all := calls + [c];
    assert all[..|calls|] == calls && all[|calls|] == c && (calls != [] ==> all[0] == calls[0]);
    var l, l' := Life(cfg, s, calls), Life(cfg, s, all);
    assert l' == Lived(cfg, s, l, c);
    if l.row.Since() != ZERO_TIME {
      var j :| DownFrom(cfg, calls, s, j) && calls[j].now == l.row.Since();
      assert all[j].now <= all[|calls|].now;
    }
    if c.now - l'.start >= cfg.warmup {
      CallOnRow(cfg, s, l.row, c);
      if l'.row.Since() != ZERO_TIME {
        HeldIsFresh(cfg, all, s);
        NewDown(cfg, calls, c, s, l.row.Since(), l'.row.Since());
      }
    }
  }

  /** A commit to Down has waited out the delay. */
  lemma CommitWaited(cfg: Config, calls: seq<Call>, c: Call, s: Subject)
    requires cfg.holdDown > 0 && WellFed(calls + [c], s) && ClockHonest(cfg, calls, s)
    requires Life(cfg, s, calls).row.Committed() != Down && Life(cfg, s, calls + [c]).row.Committed() == Down
    ensures CalledDown(c, s)
    ensures exists j :: DownFrom(cfg, calls + [c], s, j) && c.now - (calls + [c])[j].now >= cfg.holdDown
  {
    var all := calls + [c];
    assert all[..|calls|] == calls && all[|calls|] == c;
    var l := Life(cfg, s, calls);
    CallOnRow(cfg, s, l.row, c);
    HeldIsFresh(cfg, all, s);
    var j :| DownFrom(cfg, calls, s, j) && calls[j].now == l.row.Since();
    DownLonger(cfg, calls, c, s, j);
    assert all[j].now == l.row.Since();
  }

  lemma {:induction false} ClockStaysHonest(cfg: Config, calls: seq<Call>, s: Subject)
    requires cfg.holdDown > 0 && WellFed(calls, s)
    ensures ClockHonest(cfg, calls, s)
  {
    if calls != [] {
      var rest, c := calls[..|calls| - 1], calls[|calls| - 1];
      assert calls == rest + [c];
      assert forall i :: 0 <= i < |rest| ==> rest[i] == calls[i];
      ClockStaysHonest(cfg, rest, s);
      ClockTicks(cfg, rest, c, s);
    }
  }

  // ---- ... and a down that lasts is committed ----

  /** The tracker has been watching since step `j`: it has committed Down, or its clock has run that long. */
  ghost predicate Watched(cfg: Config, calls: seq<Call>, s: Subject, j: nat)
    requires j < |calls|
  {
    var r := Life(cfg, s, calls).row;
    && r.lastSeen.Some?
    && (forall m :: j <= m < |calls| && Names(calls[m].decisions, s) ==> calls[m].now <= r.lastSeen.value)
    && (r.Committed() == Down || (r.Since() != ZERO_TIME && r.Since() <= calls[j].now))
  }

  /** What a call does to a row it does not evict, if all it says is Down. */
  lemma DownOnRow(cfg: Config, s: Subject, r: Row, c: Call)
    requires cfg.holdDown > 0 && ZERO_TIME < c.now && Once(c.decisions, s) && OnlyDown(c, s)
    requires Names(c.decisions, s) || (r.lastSeen.Some? && c.now - r.lastSeen.value <= 72 * HOUR)
    ensures
      var r' := Feed(cfg, s, SweptRow(s, r, c).0, c.decisions, c.alive, c.now).0;
      && r'.lastSeen == (if Names(c.decisions, s) then Some(c.now) else r.lastSeen)
      && (r.Committed() == Down ==> r'.Committed() == Down)
      && (r.Committed() != Down && CalledDown(c, s) ==>
            && (r'.Committed() == Down <==> c.now - DownStart(r, c.now) >= cfg.holdDown)
            && (r'.Committed() != Down ==> r'.Since() == DownStart(r, c.now)))
      && (!CalledDown(c, s) ==> r'.Committed() == r.Committed() && r'.Since() == r.Since())
  {
    var r1 := SweptRow(s, r, c).0;
    Paging.FedKeepsMention(cfg, s, r1, StatesOf(c.decisions, s), c.alive, c.now);
    if d :| d in c.decisions && Spoken(d, s) {
      SoleDecision(cfg, s, r1, c.decisions, d, c.alive, c.now);
      StepHolds(cfg, s, r1, d.state, c.alive, c.now);
    } else {
      Unspoken(c.decisions, s);
    }
  }

  lemma ClockIsPast(cfg: Config, calls: seq<Call>, c: Call, s: Subject)
    requires cfg.holdDown > 0 && WellFed(calls + [c], s)
    ensures Life(cfg, s, calls).row.Since() != ZERO_TIME ==> Life(cfg, s, calls).row.Since() <= c.now
    ensures calls != [] ==> Life(cfg, s, calls).start == calls[0].now
  {
    var all := calls + [c];
    assert all[|calls|] == c && forall i :: 0 <= i < |calls| ==> all[i] == calls[i];
    ClockStaysHonest(cfg, calls, s);
    if Life(cfg, s, calls).row.Since() != ZERO_TIME {
      var j :| DownFrom(cfg, calls, s, j) && calls[j].now == Life(cfg, s, calls).row.Since();
      assert all[j].now <= all[|calls|].now;
    }
  }

  /** Past the warmup a life goes on by sweeping and feeding its row. */
  lemma JudgedRow(cfg: Config, calls: seq<Call>, c: Call, s: Subject)
    requires calls != [] ==> Life(cfg, s, calls).start == calls[0].now && calls[0].now != ZERO_TIME
    requires c.now - (calls + [c])[0].now >= cfg.warmup
    ensures Life(cfg, s, calls + [c]).row
         == Feed(cfg, s, SweptRow(s, Life(cfg, s, calls).row, c).0, c.decisions, c.alive, c.now).0
  {
    var all := calls + [c];
    assert all[..|calls|] == calls && all[|calls|] == c && (calls != [] ==> all[0] == calls[0]);
    assert Life(cfg, s, all) == Lived(cfg, s, Life(cfg, s, calls), c);
  }

  lemma CalledIsNamed(c: Call, s: Subject)
    requires CalledDown(c, s)
    ensures Names(c.decisions, s)
  {
    var d :| d in c.decisions && Spoken(d, s) && d.state == Down;
    NamedIn(c.decisions, d, s);
  }

  lemma WatchBegins(cfg: Config, calls: seq<Call>, c: Call, s: Subject)
    requires cfg.holdDown > 0 && WellFed(calls + [c], s) && DownFrom(cfg, calls + [c], s, |calls|)
    ensures Watched(cfg, calls + [c], s, |calls|)
  {
    var all := calls + [c];
    assert all[|calls|] == c && (calls != [] ==> all[0] == calls[0]);
    DownBefore(cfg, calls, c, s, |calls|);
    ClockIsPast(cfg, calls, c, s);
    JudgedRow(cfg, calls, c, s);
    CalledIsNamed(c, s);
    DownOnRow(cfg, s, Life(cfg, s, calls).row, c);
  }

  lemma StillRemembered(cfg: Config, calls: seq<Call>, c: Call, s: Subject, j: nat)
    requires WellFed(calls + [c], s) && j < |calls| && DownFrom(cfg, calls + [c], s, j)
    requires Watched(cfg, calls, s, j)
    ensures Names(c.decisions, s) || c.now - Life(cfg, s, calls).row.lastSeen.value <= 72 * HOUR
  {
    var all, seen := calls + [c], Life(cfg, s, calls).row.lastSeen.value;
    assert all[|calls|] == c && all[j] == calls[j];
    assert Fresh(all, s, |calls|);
    var l :| 0 <= l <= |calls| && Names(all[l].decisions, s) && all[|calls|].now - all[l].now <= 72 * HOUR;
    CalledIsNamed(calls[j], s);
    assert calls[j].now <= seen;
    if l < j {
      assert all[l].now <= all[j].now;
    } else if l < |calls| {
      assert all[l] == calls[l] && calls[l].now <= seen;
    }
  }

  lemma MentionsStaySeen(calls: seq<Call>, c: Call, s: Subject, j: nat, seen: Time)
    requires Ordered(calls + [c])
    requires forall m :: j <= m < |calls| && Names(calls[m].decisions, s) ==> calls[m].now <= seen
    ensures
      var all := calls + [c];
      forall m :: j <= m < |all| && Names(all[m].decisions, s) ==>
        all[m].now <= if Names(c.decisions, s) then c.now else seen
  {
    var all := calls + [c];
    assert all[|calls|] == c;
    forall m | j <= m < |all| && Names(all[m].decisions, s)
      ensures all[m].now <= if Names(c.decisions, s) then c.now else seen
    {
      if m < |calls| {
        assert all[m] == calls[m] && all[m].now <= all[|calls|].now;
      }
    }
  }

  lemma WatchGoesOn(cfg: Config, calls: seq<Call>, c: Call, s: Subject, j: nat)
    requires cfg.holdDown > 0 && WellFed(calls + [c], s) && j < |calls| && DownFrom(cfg, calls + [c], s, j)
    requires Watched(cfg, calls, s, j)
    ensures Watched(cfg, calls + [c], s, j)
    ensures CalledDown(c, s) && c.now - calls[j].now >= cfg.holdDown
        ==> Life(cfg, s, calls + [c]).row.Committed() == Down
  {
    var all, l := calls + [c], Life(cfg, s, calls);
    assert all[..|calls|] == calls && all[|calls|] == c && all[j] == calls[j] && all[0] == calls[0];
    ClockIsPast(cfg, calls, c, s);
    assert all[j].now <= all[|calls|].now;
    DownBefore(cfg, calls, c, s, j);
    StillRemembered(cfg, calls, c, s, j);
    DownOnRow(cfg, s, l.row, c);
    assert Life(cfg, s, all) == Lived(cfg, s, l, c);
    MentionsStaySeen(calls, c, s, j, l.row.lastSeen.value);
  }

  lemma {:induction false} LastingDownIsWatched(cfg: Config, calls: seq<Call>, s: Subject, j: nat)
    requires cfg.holdDown > 0 && WellFed(calls, s) && DownFrom(cfg, calls, s, j)
    ensures Watched(cfg, calls, s, j)
  {
    var rest, c := calls[..|calls| - 1], calls[|calls| - 1];
    assert calls == rest + [c];
    if j == |rest| {
      WatchBegins(cfg, rest, c, s);
    } else {
      DownBefore(cfg, rest, c, s, j);
      WellFedBefore(calls, s, |rest|);
      LastingDownIsWatched(cfg, rest, s, j);
      WatchGoesOn(cfg, rest, c, s, j);
    }
  }

  lemma LastingDownIsCommitted(cfg: Config, calls: seq<Call>, c: Call, s: Subject, j: nat)
    requires cfg.holdDown > 0 && WellFed(calls + [c], s) && DownFrom(cfg, calls + [c], s, j) && CalledDown(c, s)
    requires c.now - (calls + [c])[j].now >= cfg.holdDown
    ensures Life(cfg, s, calls + [c]).row.Committed() == Down
  {
    assert (calls + [c])[|calls|] == c;
    DownBefore(cfg, calls, c, s, j);
    assert forall i :: 0 <= i < |calls| ==> calls[i] == (calls + [c])[i];
    LastingDownIsWatched(cfg, calls, s, j);
    WatchGoesOn(cfg, calls, c, s, j);
  }

  lemma NotLongEnough(cfg: Config, calls: seq<Call>, c: Call, s: Subject)
    requires cfg.holdDown > 0 && WellFed(calls + [c], s) && CalledDown(c, s)
    requires Life(cfg, s, calls + [c]).row.Committed() != Down
    ensures forall j: nat :: DownFrom(cfg, calls + [c], s, j) ==> c.now - (calls + [c])[j].now < cfg.holdDown
  {
    forall j: nat | DownFrom(cfg, calls + [c], s, j) ensures c.now - (calls + [c])[j].now < cfg.holdDown {
      if c.now - (calls + [c])[j].now >= cfg.holdDown {
        LastingDownIsCommitted(cfg, calls, c, s, j);
      }
    }
  }

  lemma CommitEarned(cfg: Config, calls: seq<Call>, c: Call, s: Subject)
    requires cfg.holdDown > 0 && WellFed(calls, s) && WellFed(calls + [c], s)
    requires Life(cfg, s, calls).row.Committed() != Down && Life(cfg, s, calls + [c]).row.Committed() == Down
    ensures CalledDown(c, s)
    ensures exists j: nat :: DownFrom(cfg, calls + [c], s, j) && c.now - (calls + [c])[j].now >= cfg.holdDown
  {
    ClockStaysHonest(cfg, calls, s);
    CommitWaited(cfg, calls, c, s);
    var j :| DownFrom(cfg, calls + [c], s, j) && c.now - (calls + [c])[j].now >= cfg.holdDown;
  }

  // ---- Without a delay ----

  lemma {:induction false} StartIsFirst(cfg: Config, calls: seq<Call>, s: Subject)
    requires forall i :: 0 <= i < |calls| ==> ZERO_TIME < calls[i].now
    ensures calls != [] ==> Life(cfg, s, calls).start == calls[0].now
    ensures calls == [] ==> Life(cfg, s, calls).start == ZERO_TIME
  {
    if calls != [] {
      StartIsFirst(cfg, calls[..|calls| - 1], s);
    }
  }

  lemma InstantStep(cfg: Config, s: Subject, r: Row, cur: State, alive: seq<Name>, now: Time)
    requires cfg.holdDown <= 0
    ensures StepRow(cfg, s, r, cur, alive, now).0.Committed() == cur
  {
  }

  /** With no delay a call commits exactly what it says. */
  lemma InstantCall(cfg: Config, calls: seq<Call>, c: Call, s: Subject)
    requires cfg.holdDown <= 0 && WellFed(calls + [c], s) && c.now - (calls + [c])[0].now >= cfg.warmup
    ensures CalledDown(c, s) ==> Life(cfg, s, calls + [c]).row.Committed() == Down
    ensures Life(cfg, s, calls + [c]).row.Committed() == Down ==>
      CalledDown(c, s) || Life(cfg, s, calls).row.Committed() == Down
  {
    var all, r := calls + [c], Life(cfg, s, calls).row;
    assert all[|calls|] == c && forall i :: 0 <= i < |calls| ==> all[i] == calls[i];
    StartIsFirst(cfg, calls, s);
    JudgedRow(cfg, calls, c, s);
    SweepHolds(s, r, c);
    var r1 := SweptRow(s, r, c).0;
    if d :| d in c.decisions && Spoken(d, s) {
      SoleDecision(cfg, s, r1, c.decisions, d, c.alive, c.now);
      InstantStep(cfg, s, r1, d.state, c.alive, c.now);
      forall e | e in c.decisions && Spoken(e, s) ensures e == d {
        OnlySpeaker(c.decisions, s, d, e);
      }
    } else {
      Unspoken(c.decisions, s);
    }
  }

  lemma UnjudgedCall(cfg: Config, calls: seq<Call>, c: Call, s: Subject)
    requires WellFed(calls + [c], s) && c.now - (calls + [c])[0].now < cfg.warmup
    ensures Life(cfg, s, calls + [c]).row == Life(cfg, s, calls).row
    ensures Life(cfg, s, calls + [c]).trace == Life(cfg, s, calls).trace
  {
    var all := calls + [c];
    assert all[..|calls|] == calls && all[|calls|] == c && forall i :: 0 <= i < |calls| ==> all[i] == calls[i];
    StartIsFirst(cfg, calls, s);
    assert Life(cfg, s, all) == Lived(cfg, s, Life(cfg, s, calls), c);
  }

  lemma InstantDownFrom(cfg: Config, calls: seq<Call>, c: Call, s: Subject)
    requires WellFed(calls + [c], s) && CalledDown(c, s) && c.now - (calls + [c])[0].now >= cfg.warmup
    ensures DownFrom(cfg, calls + [c], s, |calls|)
  {
    var all := calls + [c];
    assert all[|calls|] == c;
    CalledIsNamed(c, s);
    var d :| d in c.decisions && Spoken(d, s) && d.state == Down;
    forall e | e in c.decisions && Spoken(e, s) ensures e.state == Down {
      OnlySpeaker(c.decisions, s, d, e);
    }
    assert Fresh(all, s, |calls|) by {
      assert Names(all[|calls|].decisions, s) && all[|calls|].now - all[|calls|].now <= 72 * HOUR;
    }
  }

  // ---- Both together ----

  /** At call `c` the subject has been down for the delay. */
  ghost predicate Lasted(cfg: Config, calls: seq<Call>, c: Call, s: Subject) {
    exists j: nat :: DownFrom(cfg, calls + [c], s, j) && c.now - (calls + [c])[j].now >= cfg.holdDown
  }

  lemma InstantIff(cfg: Config, calls: seq<Call>, c: Call, s: Subject)
    requires cfg.holdDown <= 0 && WellFed(calls + [c], s) && Life(cfg, s, calls).row.Committed() != Down
    ensures Life(cfg, s, calls + [c]).row.Committed() == Down <==> CalledDown(c, s) && Lasted(cfg, calls, c, s)
  {
    var all := calls + [c];
    assert all[|calls|] == c;
    if c.now - all[0].now >= cfg.warmup {
      InstantCall(cfg, calls, c, s);
      if CalledDown(c, s) {
        InstantDownFrom(cfg, calls, c, s);
        assert c.now - all[|calls|].now >= cfg.holdDown;
      }
    } else {
      UnjudgedCall(cfg, calls, c, s);
      forall j: nat ensures !DownFrom(cfg, all, s, j) {
        if j < |all| {
          assert all[j].now <= all[|calls|].now;
        }
      }
    }
  }

  lemma CommitsIff(cfg: Config, calls: seq<Call>, c: Call, s: Subject)
    requires WellFed(calls, s) && WellFed(calls + [c], s) && Life(cfg, s, calls).row.Committed() != Down
    ensures Life(cfg, s, calls + [c]).row.Committed() == Down <==> CalledDown(c, s) && Lasted(cfg, calls, c, s)
  {
    if cfg.holdDown <= 0 {
      InstantIff(cfg, calls, c, s);
    } else if Life(cfg, s, calls + [c]).row.Committed() == Down {
      CommitEarned(cfg, calls, c, s);
    } else if CalledDown(c, s) {
      NotLongEnough(cfg, calls, c, s);
    }
  }

  /**
   The alert delay, whatever it is, both ways: a call commits a subject Down if and only if it says Down itself
   and somebody had said so at least the delay earlier, after the warmup, with nobody saying anything else and
   the subject never forgotten in between.
   */
  lemma CommitsDownIff(cfg: Config, calls: seq<Call>, s: Subject, i: nat)
    requires WellFed(calls, s) && i < |calls|
    requires RowOf(Run(cfg, calls[..i]).0.book, s).Committed() != Down
    ensures RowOf(Run(cfg, calls[..i + 1]).0.book, s).Committed() == Down
       <==> CalledDown(calls[i], s)
            && exists j: nat :: DownFrom(cfg, calls[..i + 1], s, j) && calls[i].now - calls[j].now >= cfg.holdDown
  {
    PrefixGrows(calls, i);
    WellFedBefore(calls, s, i);
    RunIsLives(cfg, calls[..i], s);
    RunIsLives(cfg, calls[..i] + [calls[i]], s);
    CommitsIff(cfg, calls[..i], calls[i], s);
  }

  lemma OnlyDownSince(cfg: Config, calls: seq<Call>, s: Subject, i: nat, j: nat)
    requires i < |calls| && DownFrom(cfg, calls[..i + 1], s, j)
    ensures CalledDown(calls[j], s) && forall k :: j <= k <= i ==> OnlyDown(calls[k], s)
  {
    var all := calls[..i + 1];
    forall k | j <= k <= i ensures OnlyDown(calls[k], s) {
      assert OnlyDown(all[k], s) && all[k] == calls[k];
    }
  }

  /** A commit to Down takes a step at least the delay earlier since when there have been nothing but accusers. */
  lemma DownNeedsTheWholeDelay(cfg: Config, calls: seq<Call>, s: Subject, i: nat)
    requires WellFed(calls, s) && i < |calls|
    requires RowOf(Run(cfg, calls[..i]).0.book, s).Committed() != Down
    requires RowOf(Run(cfg, calls[..i + 1]).0.book, s).Committed() == Down
    ensures exists j :: 0 <= j <= i && calls[i].now - calls[j].now >= cfg.holdDown && CalledDown(calls[j], s)
                        && forall k :: j <= k <= i ==> OnlyDown(calls[k], s)
  {
    CommitsDownIff(cfg, calls, s, i);
    var j: nat :| DownFrom(cfg, calls[..i + 1], s, j) && calls[i].now - calls[j].now >= cfg.holdDown;
    OnlyDownSince(cfg, calls, s, i, j);
  }

  // ---- Joined with the quorum ----

  /** What a lantern reads when it computes its status: its store, the roster size and its clock. */
  datatype Reading = Reading(store: Store, lastKnown: nat, maxAge: int, at: Time)

  ghost function BallotAt(r: Reading, s: Subject): Ballot {
    BallotOf(r.store, s, r.maxAge, r.at)
  }

  /** The decisions are the status of that reading: one verdict per subject; blackouts ride along. */
  ghost predicate StatusOf(ds: seq<Decision>, r: Reading) {
    && (forall d :: d in ds && d.check != "blackout" ==> d == Verdict(d.About(), BallotAt(r, d.About()), r.lastKnown))
    && (forall k :: k in r.store ==> exists d :: d in ds && d.About() == r.store[k].About())
    && (forall s: Subject :: s.check != "blackout" ==> Once(ds, s))
  }

  /** The lantern concerned says down, or, if it says nothing, a majority of the remembered swarm does. */
  ghost predicate Convicted(r: Reading, s: Subject) {
    var b := BallotAt(r, s);
    if s.target in b then b[s.target].state == Down else 2 * |Downs(b)| > r.lastKnown
  }

  lemma StatusConvicts(ds: seq<Decision>, r: Reading, s: Subject, alive: seq<Name>, now: Time)
    requires StatusOf(ds, r) && s.check != "blackout"
    requires OnlyDown(Call(ds, alive, now), s) && BallotAt(r, s) != map[]
    ensures Convicted(r, s)
  {
    var b := BallotAt(r, s);
    var n :| n in b;
    var k := Key(n, s.check, s.target);
    assert r.store[k].About() == s;
    var d :| d in ds && d.About() == s;
    assert |b| > 0;
    assert d == Verdict(s, b, r.lastKnown);
    VerdictMeansMajority(s, b, r.lastKnown);
  }

  lemma SpokenHasBallot(c: Call, r: Reading, s: Subject)
    requires StatusOf(c.decisions, r) && CalledDown(c, s) && s.check != "blackout"
    ensures BallotAt(r, s) != map[]
  {
    var d :| d in c.decisions && Spoken(d, s) && d.state == Down;
    assert d == Verdict(s, BallotAt(r, s), r.lastKnown);
  }

  lemma StatusIsWellFed(calls: seq<Call>, readings: seq<Reading>, s: Subject)
    requires s.check != "blackout" && |readings| == |calls|
    requires Ordered(calls) && forall c :: c in calls ==> ZERO_TIME < c.now
    requires forall k :: 0 <= k < |calls| ==> StatusOf(calls[k].decisions, readings[k])
    ensures WellFed(calls, s)
  {
    forall k | 0 <= k < |calls| ensures ZERO_TIME < calls[k].now && Once(calls[k].decisions, s) {
      assert StatusOf(calls[k].decisions, readings[k]) && calls[k] in calls;
    }
  }

  /**
   Page soundness, end to end. If the decisions of every flash are the status of the lantern's store,
   then a subject (blackouts aside) is committed Down only if, at some flash at least the alert delay
   ago and at every flash since at which it had a live voter, its own lantern said down or a majority
   of the last known swarm had down as its newest live word.
   */
  lemma PagesAreEarned(cfg: Config, calls: seq<Call>, readings: seq<Reading>, s: Subject, i: nat)
    requires s.check != "blackout"
    requires |readings| == |calls| && i < |calls|
    requires Ordered(calls) && forall c :: c in calls ==> ZERO_TIME < c.now
    requires forall k :: 0 <= k < |calls| ==> StatusOf(calls[k].decisions, readings[k])
    requires RowOf(Run(cfg, calls[..i]).0.book, s).Committed() != Down
    requires RowOf(Run(cfg, calls[..i + 1]).0.book, s).Committed() == Down
    ensures exists j :: 0 <= j <= i && calls[i].now - calls[j].now >= cfg.holdDown
                        && BallotAt(readings[j], s) != map[]
                        && forall k :: j <= k <= i && BallotAt(readings[k], s) != map[] ==> Convicted(readings[k], s)
  {
    StatusIsWellFed(calls, readings, s);
    DownNeedsTheWholeDelay(cfg, calls, s, i);
    var j :| 0 <= j <= i && calls[i].now - calls[j].now >= cfg.holdDown && CalledDown(calls[j], s)
             && forall k :: j <= k <= i ==> OnlyDown(calls[k], s);
    forall k | j <= k <= i && BallotAt(readings[k], s) != map[] ensures Convicted(readings[k], s) {
      StatusConvicts(calls[k].decisions, readings[k], s, calls[k].alive, calls[k].now);
    }
    SpokenHasBallot(calls[j], readings[j], s);
  }

  lemma ConvictedIsCalledDown(c: Call, r: Reading, s: Subject)
    requires StatusOf(c.decisions, r) && s.check != "blackout" && Convicted(r, s)
    ensures CalledDown(c, s) && OnlyDown(c, s) && Names(c.decisions, s)
  {
    var b := BallotAt(r, s);
    VerdictMeansMajority(s, b, r.lastKnown);
    CountsOrdered(b);
    assert b.Keys != {};
    var n :| n in b;
    var k := Key(n, s.check, s.target);
    assert r.store[k].About() == s;
    var d :| d in c.decisions && d.About() == s;
    NamedIn(c.decisions, d, s);
    assert d == Verdict(s, b, r.lastKnown) && d.state == Down && d.voters != 0;
    forall e | e in c.decisions && Spoken(e, s) ensures e.state == Down {
      assert e == Verdict(s, b, r.lastKnown);
    }
  }

  lemma ConvictedIsDownFrom(cfg: Config, calls: seq<Call>, readings: seq<Reading>, s: Subject, j: nat)
    requires s.check != "blackout" && |readings| == |calls| && j < |calls|
    requires calls[j].now - calls[0].now >= cfg.warmup
    requires forall k :: j <= k < |calls| ==> StatusOf(calls[k].decisions, readings[k]) && Convicted(readings[k], s)
    ensures DownFrom(cfg, calls, s, j)
  {
    forall k | j <= k < |calls| ensures CalledDown(calls[k], s) && OnlyDown(calls[k], s) && Fresh(calls, s, k) {
      ConvictedIsCalledDown(calls[k], readings[k], s);
    }
  }

  lemma LastingIsCommitted(cfg: Config, calls: seq<Call>, c: Call, s: Subject, j: nat)
    requires WellFed(calls + [c], s) && DownFrom(cfg, calls + [c], s, j) && CalledDown(c, s)
    requires c.now - (calls + [c])[j].now >= cfg.holdDown
    ensures Life(cfg, s, calls + [c]).row.Committed() == Down
  {
    var all := calls + [c];
    assert all[|calls|] == c && all[j].now <= all[|calls|].now;
    if cfg.holdDown > 0 {
      LastingDownIsCommitted(cfg, calls, c, s, j);
    } else {
      InstantCall(cfg, calls, c, s);
    }
  }

  lemma DownFromIsCommitted(cfg: Config, calls: seq<Call>, s: Subject, j: nat, i: nat)
    requires WellFed(calls, s) && j <= i < |calls| && DownFrom(cfg, calls[..i + 1], s, j) && CalledDown(calls[i], s)
    requires calls[i].now - calls[j].now >= cfg.holdDown
    ensures RowOf(Run(cfg, calls[..i + 1]).0.book, s).Committed() == Down
  {
    PrefixGrows(calls, i);
    WellFedBefore(calls, s, i);
    LastingIsCommitted(cfg, calls[..i], calls[i], s, j);
    RunIsLives(cfg, calls[..i + 1], s);
  }

  /**
   ... and the converse: an outage that lasts is committed. If at every flash from `j` on the target's own
   lantern says down or a majority of the last known swarm does, then, past the warmup, the subject is
   committed Down at every flash at least the delay later.
   */
  lemma OutagesAreCommitted(cfg: Config, calls: seq<Call>, readings: seq<Reading>, s: Subject, j: nat, i: nat)
    requires s.check != "blackout"
    requires |readings| == |calls| && j <= i < |calls|
    requires Ordered(calls) && forall c :: c in calls ==> ZERO_TIME < c.now
    requires forall k :: 0 <= k < |calls| ==> StatusOf(calls[k].decisions, readings[k])
    requires calls[j].now - calls[0].now >= cfg.warmup && calls[i].now - calls[j].now >= cfg.holdDown
    requires forall k :: j <= k <= i ==> Convicted(readings[k], s)
    ensures RowOf(Run(cfg, calls[..i + 1]).0.book, s).Committed() == Down
  {
    StatusIsWellFed(calls, readings, s);
    ConvictedIsDownFrom(cfg, calls[..i + 1], readings[..i + 1], s, j);
    ConvictedIsCalledDown(calls[i], readings[i], s);
    DownFromIsCommitted(cfg, calls, s, j, i);
  }
}
