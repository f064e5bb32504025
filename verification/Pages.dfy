/**
 What every page says and when, read off a subject's history mark by mark: no fold over it and no helper of the
 tracker, with the bounds of internal/notify/notify.go written out.
 */
module Pages {
  import opened Base
  import opened Quorum
  import opened Election
  import opened Tracker
  import opened TrackerLife
  import opened Paging

  // ---- Reading a history ----

  predicate Commits(m: Mark) {
    m.Step? && m.committed
  }

  /** An eviction, or the word that a bouncing subject settled. */
  predicate Closes(m: Mark) {
    m.Reset? || (m.page.Some? && m.page.value.kind.Settled?)
  }

  /** Nothing from `i` on closes the episode. */
  predicate Open(t: seq<Mark>, i: int) {
    0 <= i < |t| && forall m :: i <= m < |t| ==> !Closes(t[m])
  }

  /** The mark at `i` is the last change of state, with no eviction since. */
  ghost predicate LastChange(t: seq<Mark>, i: int) {
    0 <= i < |t| && Commits(t[i]) && forall m :: i < m < |t| ==> t[m].Step? && !t[m].committed
  }

  /** The state last committed; Up if none has been, or none since an eviction. */
  ghost predicate Stands(t: seq<Mark>, state: State) {
    || (exists i :: LastChange(t, i) && t[i].cur == state)
    || (state == Up && forall i :: !LastChange(t, i))
  }

  /** The mark at `i` is the last that says something, with no eviction since. */
  ghost predicate LastPage(t: seq<Mark>, i: int) {
    0 <= i < |t| && t[i].Step? && t[i].page.Some? && forall m :: i < m < |t| ==> t[m].Step? && t[m].page.None?
  }

  /** The last thing said is that it is flapping. */
  ghost predicate Bounces(t: seq<Mark>) {
    exists i :: LastPage(t, i) && t[i].page.value.kind == Flapping
  }

  /** Three changes of this episode lie within ten minutes of `now`: one more makes four. */
  ghost predicate Crowded(t: seq<Mark>, now: Time) {
    exists i, j, l :: 0 <= i < j < l < |t| && Open(t, i) && Commits(t[i]) && Commits(t[j]) && Commits(t[l])
                      && now - t[i].at <= 600 * SECOND
  }

  /** The last change of this episode is at least five minutes old. */
  ghost predicate Steady(t: seq<Mark>, now: Time) {
    exists i :: Open(t, i) && LastChange(t, i) && now - t[i].at >= 300 * SECOND
  }

  /** The last lantern that said anything but that it settled, with no eviction since, is not alive. */
  ghost predicate SpeakerGone(t: seq<Mark>, alive: seq<Name>) {
    exists i :: 0 <= i < |t| && t[i].Step? && t[i].page.Some? && !t[i].page.value.kind.Settled?
                && (forall m :: i < m < |t| ==> t[m].Step? && (t[m].page.None? || t[m].page.value.kind.Settled?))
                && t[i].page.value.winner !in alive
  }

  // ---- The folds say the same ----

  lemma {:induction false} StandsIs(t: seq<Mark>, state: State)
    ensures Stands(t, state) <==> CommittedIn(t) == state
  {
    if t != [] {
      var n, rest := |t| - 1, Init(t);
      StandsIs(rest, state);
      if t[n].Reset? {
        assert forall i :: !LastChange(t, i);
      } else if t[n].committed {
        assert LastChange(t, n);
        assert forall i :: LastChange(t, i) ==> i == n;
      } else {
        forall i ensures LastChange(t, i) <==> LastChange(rest, i) {
        }
        assert forall i :: LastChange(rest, i) ==> rest[i] == t[i];
      }
    }
  }

  lemma {:induction false} BouncesIs(t: seq<Mark>)
    ensures Bounces(t) <==> Believed(t) == Bouncing
  {
    if t != [] {
      var n, rest := |t| - 1, Init(t);
      BouncesIs(rest);
      if t[n].Reset? {
        assert forall i :: !LastPage(t, i);
      } else if t[n].page.Some? {
        assert LastPage(t, n);
        assert forall i :: LastPage(t, i) ==> i == n;
      } else {
        forall i ensures LastPage(t, i) <==> LastPage(rest, i) {
        }
        assert forall i :: LastPage(rest, i) ==> rest[i] == t[i];
      }
    }
  }

  lemma {:induction false} SpeakerIs(t: seq<Mark>, alive: seq<Name>)
    ensures SpeakerGone(t, alive) <==> LastSender(t).Some? && LastSender(t).value !in alive
  {
    if t != [] {
      SpeakerIs(Init(t), alive);
    }
  }

  /** Where the changes of the running episode are. */
  ghost function Changes(t: seq<Mark>): seq<int> {
    if t == [] || Closes(t[|t| - 1]) then []
    else if t[|t| - 1].committed then Changes(Init(t)) + [|t| - 1]
    else Changes(Init(t))
  }

  ghost predicate Lists(c: seq<int>, t: seq<Mark>, times: seq<Time>) {
    && |c| == |times|
    && (forall q :: 0 <= q < |c| ==> Open(t, c[q]) && Commits(t[c[q]]) && t[c[q]].at == times[q])
    && (forall q, r :: 0 <= q < r < |c| ==> c[q] < c[r])
    && (forall i :: Open(t, i) && Commits(t[i]) ==> i in c)
  }

  lemma ListsOneMore(c: seq<int>, t: seq<Mark>, times: seq<Time>, m: Mark)
    requires Lists(c, t, times) && !Closes(m)
    ensures m.committed ==> Lists(c + [|t|], t + [m], times + [m.at])
    ensures !m.committed ==> Lists(c, t + [m], times)
  {
    var all := t + [m];
    forall i | 0 <= i < |t| ensures Open(all, i) <==> Open(t, i) {
      assert all[|t|] == m && forall k :: i <= k < |t| ==> all[k] == t[k];
    }
  }

  lemma {:induction false} ChangesAre(t: seq<Mark>)
    ensures Lists(Changes(t), t, CommitTimes(t))
  {
    if t != [] && !Closes(t[|t| - 1]) {
      ChangesAre(Init(t));
      ListsOneMore(Changes(Init(t)), Init(t), CommitTimes(Init(t)), t[|t| - 1]);
      assert Init(t) + [t[|t| - 1]] == t;
    }
  }

  lemma {:induction false} ManyWithin(times: seq<Time>, now: Time, q: nat)
    requires Sorted(times) && q > 0
    ensures |Within(times, now)| >= q <==> |times| >= q && now - times[|times| - q] <= 600 * SECOND
  {
    if times != [] {
      var rest, last := times[..|times| - 1], times[|times| - 1];
      if now - last <= FLAP_WINDOW {
        if q > 1 {
          ManyWithin(rest, now, q - 1);
        }
      } else {
        ManyWithin(rest, now, q);
      }
    }
  }

  lemma MarkIsListed(c: seq<int>, t: seq<Mark>, times: seq<Time>, i: int, j: int, l: int)
    requires Lists(c, t, times) && 0 <= i < j < l < |t| && Open(t, i)
    requires Commits(t[i]) && Commits(t[j]) && Commits(t[l])
    ensures exists q :: 0 <= q && q + 2 < |c| && c[q] == i
  {
    assert Open(t, j) && Open(t, l);
    var q :| 0 <= q < |c| && c[q] == i;
    var r :| 0 <= r < |c| && c[r] == j;
    var v :| 0 <= v < |c| && c[v] == l;
  }

  lemma ThreeAreCrowded(c: seq<int>, t: seq<Mark>, times: seq<Time>, now: Time)
    requires Lists(c, t, times) && |times| >= 3 && now - times[|times| - 3] <= 600 * SECOND
    ensures Crowded(t, now)
  {
    var q := |c| - 3;
    assert c[q] < c[q + 1] < c[q + 2];
    assert Open(t, c[q]) && Commits(t[c[q]]) && Commits(t[c[q + 1]]) && Commits(t[c[q + 2]]);
  }

  lemma CrowdedAreThree(c: seq<int>, t: seq<Mark>, times: seq<Time>, now: Time)
    requires Lists(c, t, times) && Sorted(times) && Crowded(t, now)
    ensures |times| >= 3 && now - times[|times| - 3] <= 600 * SECOND
  {
    var i, j, l :| 0 <= i < j < l < |t| && Open(t, i) && Commits(t[i]) && Commits(t[j]) && Commits(t[l])
                   && now - t[i].at <= 600 * SECOND;
    MarkIsListed(c, t, times, i, j, l);
    var q :| 0 <= q && q + 2 < |c| && c[q] == i;
    assert times[q] <= times[|times| - 3];
  }

  lemma CrowdedIs(t: seq<Mark>, now: Time)
    requires Sorted(CommitTimes(t))
    ensures Crowded(t, now) <==> |Recent(CommitTimes(t) + [now])| >= FLAP_COUNT
  {
    var times := CommitTimes(t);
    ChangesAre(t);
    ManyWithin(times, now, 3);
    assert (times + [now])[..|times|] == times;
    if |Within(times, now)| >= 3 {
      ThreeAreCrowded(Changes(t), t, times, now);
    }
    if Crowded(t, now) {
      CrowdedAreThree(Changes(t), t, times, now);
    }
  }

  lemma LastListed(c: seq<int>, t: seq<Mark>, times: seq<Time>)
    requires Lists(c, t, times) && c != []
    ensures LastChange(t, c[|c| - 1])
  {
    var i := c[|c| - 1];
    assert forall q :: 0 <= q < |c| ==> c[q] <= i;
    forall m | i < m < |t| ensures t[m].Step? && !t[m].committed {
      assert !Closes(t[m]) && Open(t, m) && m !in c;
    }
  }

  lemma SteadyIs(t: seq<Mark>, now: Time)
    ensures Steady(t, now)
       <==> CommitTimes(t) != [] && now - CommitTimes(t)[|CommitTimes(t)| - 1] >= SETTLE_AFTER
  {
    var c := Changes(t);
    ChangesAre(t);
    if c != [] {
      LastListed(c, t, CommitTimes(t));
    }
    forall i | Open(t, i) && LastChange(t, i) ensures c != [] && i == c[|c| - 1] {
      var q :| 0 <= q < |c| && c[q] == i;
    }
  }

  // ---- Marks come in order ----

  predicate InTurn(t: seq<Mark>, clock: Time) {
    && (forall i, j :: 0 <= i <= j < |t| ==> t[i].at <= t[j].at)
    && (forall i :: 0 <= i < |t| ==> t[i].at <= clock)
  }

  lemma {:induction false} FedInTurn(cfg: Config, s: Subject, r: Row, states: seq<State>, alive: seq<Name>, now: Time)
    ensures forall m :: m in Fed(cfg, s, r, states, alive, now).1 ==> m.at == now
  {
    if states != [] {
      FedInTurn(cfg, s, r, states[..|states| - 1], alive, now);
    }
  }

  lemma MoreInTurn(t: seq<Mark>, clock: Time, more: seq<Mark>, now: Time)
    requires InTurn(t, clock) && clock <= now && forall m :: m in more ==> m.at == now
    ensures InTurn(t + more, now)
  {
    forall i | 0 <= i < |more| ensures more[i].at == now {
      assert more[i] in more;
    }
  }

  lemma SweptInTurn(s: Subject, r: Row, c: Call)
    ensures forall m :: m in SweptRow(s, r, c).1 ==> m.at == c.now
  {
  }

  lemma CallInTurn(cfg: Config, s: Subject, l: LifeState, c: Call)
    requires InTurn(l.trace, c.now)
    ensures InTurn(Lived(cfg, s, l, c).trace, c.now)
  {
    var (r1, t1) := SweptRow(s, l.row, c);
    SweptInTurn(s, l.row, c);
    FedInTurn(cfg, s, r1, StatesOf(c.decisions, s), c.alive, c.now);
    MoreInTurn(l.trace, c.now, t1, c.now);
    MoreInTurn(l.trace + t1, c.now, Feed(cfg, s, r1, c.decisions, c.alive, c.now).1, c.now);
  }

  lemma {:induction false} LifeInTurn(cfg: Config, s: Subject, calls: seq<Call>, clock: Time)
    requires Ordered(calls) && (calls != [] ==> calls[|calls| - 1].now <= clock)
    ensures InTurn(Life(cfg, s, calls).trace, clock)
  {
    if calls != [] {
      var rest, c := calls[..|calls| - 1], calls[|calls| - 1];
      LifeInTurn(cfg, s, rest, c.now);
      CallInTurn(cfg, s, Life(cfg, s, rest), c);
    }
  }

  lemma CommitTimesSorted(t: seq<Mark>, clock: Time)
    requires InTurn(t, clock)
    ensures Sorted(CommitTimes(t))
  {
    ChangesAre(t);
    var c := Changes(t);
    forall q, r | 0 <= q <= r < |c| ensures CommitTimes(t)[q] <= CommitTimes(t)[r] {
      assert q < r ==> c[q] < c[r];
    }
  }

  // ---- What a page says ----

  /** The word for a subject standing at `was` that now stands at `state`. */
  predicate Worded(kind: Kind, was: State, state: State) {
    && (kind == WentDown <==> state == Down)
    && (kind == Warns <==> state == Warn)
    && (kind == Recovered <==> state == Up && was == Down)
    && (kind == Cleared <==> state == Up && was == Warn)
  }

  /** Somebody says this, unless nobody says anything. */
  predicate Says(m: Mark, kind: Kind, takeover: bool)
    requires m.Step?
  {
    m.page.Some? && m.page.value.kind == kind && m.page.value.takeover == takeover
  }

  /**
   What happens at a mark, with `t` before it and `was` standing. A change is announced by what it changes from and
   to, except that the fourth in ten minutes is announced as flapping and those after it not at all. What has not
   changed is announced when a bouncing subject has held it for five minutes, and again when whoever spoke last is
   gone and it is not up. A down held back is not announced.
   */
  ghost predicate Fitting(t: seq<Mark>, m: Mark, was: State)
    requires m.Step?
  {
    if m.committed then
      && m.cur != was
      && if Bounces(t) then m.page == None
         else if Crowded(t, m.at) then Says(m, Flapping, false)
         else m.page.Some? && !m.page.value.takeover && Worded(m.page.value.kind, was, m.cur)
    else if m.cur != was then m.cur == Down && m.page == None
    else if Bounces(t) then if Steady(t, m.at) then Says(m, Settled(m.cur), false) else m.page == None
    else if m.cur != Up && SpeakerGone(t, m.alive) then Says(m, if m.cur == Down then WentDown else Warns, true)
    else m.page == None
  }

  lemma CalledIsFitting(cfg: Config, s: Subject, t: seq<Mark>, m: Mark, clock: Time)
    requires InTurn(t, clock) && m.Step? && m == Called(cfg, s, t, m.cur, m.alive, m.at)
    ensures Fitting(t, m, CommittedIn(t))
  {
    BouncesIs(t);
    CommitTimesSorted(t, clock);
    CrowdedIs(t, m.at);
    SteadyIs(t, m.at);
    SpeakerIs(t, m.alive);
  }

  lemma PageIsElected(cfg: Config, s: Subject, t: seq<Mark>, m: Mark)
    requires m.Step? && m.page.Some? && m == Called(cfg, s, t, m.cur, m.alive, m.at)
    ensures m.page.value.winner == Elected(cfg.score, s, m.alive)
  {
  }

  /**
   Every page in every run, and every silence, is the fitting one, and is to be sent by the lantern that is alive and
   outranks the others.
   */
  lemma EveryPageIsFitting(cfg: Config, calls: seq<Call>, s: Subject, k: nat, was: State)
    requires Ordered(calls) && k < |TraceOf(Run(cfg, calls).1, s)|
    requires TraceOf(Run(cfg, calls).1, s)[k].Step? && Stands(TraceOf(Run(cfg, calls).1, s)[..k], was)
    ensures
      var t := TraceOf(Run(cfg, calls).1, s);
      && Fitting(t[..k], t[k], was)
      && (t[k].page.Some? && t[k].alive != [] && "" !in t[k].alive ==>
            && t[k].page.value.winner in t[k].alive
            && forall x :: x in t[k].alive ==>
              x == t[k].page.value.winner || cfg.score(t[k].page.value.winner, s) > cfg.score(x, s)
              || (cfg.score(t[k].page.value.winner, s) == cfg.score(x, s) && Before(x, t[k].page.value.winner)))
  {
    var t := TraceOf(Run(cfg, calls).1, s);
    var clock := if calls == [] then 0 else calls[|calls| - 1].now;
    RunIsLives(cfg, calls, s);
    LifeInTurn(cfg, s, calls, clock);
    HistoryDecides(cfg, calls, s, k);
    StandsIs(t[..k], was);
    assert InTurn(t[..k], clock);
    CalledIsFitting(cfg, s, t[..k], t[k], clock);
    if t[k].page.Some? && t[k].alive != [] && "" !in t[k].alive {
      PageIsElected(cfg, s, t[..k], t[k]);
      ElectedIsMaximum(cfg.score, s, t[k].alive);
    }
  }

  /**
   The way back: when a subject that neither bounces nor starts to is committed Up, that is always announced, as
   recovered if and only if what stood before was Down and as cleared if and only if it was Warn.
   */
  lemma AllClearTellsWhatItWas(cfg: Config, calls: seq<Call>, s: Subject, k: nat)
    requires Ordered(calls) && k < |TraceOf(Run(cfg, calls).1, s)|
    requires
      var t := TraceOf(Run(cfg, calls).1, s);
      t[k].Step? && t[k].committed && t[k].cur == Up && !Bounces(t[..k]) && !Crowded(t[..k], t[k].at)
    ensures
      var t := TraceOf(Run(cfg, calls).1, s);
      && (Says(t[k], Recovered, false) <==> Stands(t[..k], Down))
      && (Says(t[k], Cleared, false) <==> Stands(t[..k], Warn))
      && (Stands(t[..k], Down) || Stands(t[..k], Warn))
  {
    var t := TraceOf(Run(cfg, calls).1, s);
    var was := CommittedIn(t[..k]);
    StandsIs(t[..k], was);
    StandsIs(t[..k], Down);
    StandsIs(t[..k], Warn);
    EveryPageIsFitting(cfg, calls, s, k, was);
  }
}
