/**
 Blackouts are drawn from an address book each lantern fills from its own probes and never gossips. A
 lantern elected to announce one stays silent if its own book does not show it.
 */
module Books {
  import opened Base
  import opened Quorum
  import opened Alarms
  import opened Fleet
  import opened HoldDown
  import Blackout
  import E = Election
  import L = TrackerLife
  import Paging
  import Status
  import T = Tracker

  // ---- What a book makes of a reading ----

  /** At this flash the lantern's own book showed a group at `addr`. */
  ghost predicate Shows(v: Sight, addr: string) {
    exists panel :: Status.Panel(panel, v.reading) && v.min > 0 && Blackout.Capable(panel, v.addrs, v.min, addr)
  }

  /** ... with everything in it down. */
  ghost predicate ShowsDark(v: Sight, addr: string) {
    exists panel :: Status.Panel(panel, v.reading) && v.min > 0 && Blackout.Capable(panel, v.addrs, v.min, addr)
                    && Blackout.Dark(panel, v.addrs, addr)
  }

  function Alarm(addr: string): Subject {
    Subject("blackout", addr)
  }

  lemma NamedAfterPanel(ds: seq<Decision>, panel: seq<Decision>, out: seq<Decision>, v: Sight, addr: string)
    requires ds == panel + out && Status.Panel(panel, v.reading) && Status.Unclaimed(v.reading.store, addr)
    requires L.Names(ds, Alarm(addr))
    ensures exists d :: d in out && d.target == addr
  {
    Status.PanelSpeaksOnce(panel, v.reading);
    forall i | 0 <= i < |panel| ensures panel[i].About() != Alarm(addr) {
      assert panel[i] in panel;
    }
    var j :| 0 <= j < |ds| && ds[j].About() == Alarm(addr);
    assert out[j - |panel|] in out && out[j - |panel|].target == addr;
  }

  lemma GroupIsReported(c: T.Call, v: Sight, addr: string, panel: seq<Decision>)
    requires Reports(c, v) && Status.Panel(panel, v.reading) && v.min > 0
    requires Blackout.Capable(panel, v.addrs, v.min, addr)
    ensures Blackout.GroupDecision(panel, v.addrs, v.min, addr) in c.decisions
  {
    var xs: seq<Decision>, out: seq<Decision> :| Status.Reported(c.decisions, xs, out, v.reading, v.addrs, v.min);
    Status.OnePanel(xs, panel, v.reading);
  }

  lemma ReportedOnce(c: T.Call, v: Sight, addr: string)
    requires Reports(c, v) && Status.Unclaimed(v.reading.store, addr)
    ensures Once(c.decisions, Alarm(addr))
  {
    var xs: seq<Decision>, out: seq<Decision> :| Status.Reported(c.decisions, xs, out, v.reading, v.addrs, v.min);
    Status.BlackoutSpokenOnce(c.decisions, xs, out, v.reading, v.addrs, v.min, addr);
  }

  /** A blackout on a report comes from a group the lantern's own book shows. */
  lemma NamedIsShown(c: T.Call, v: Sight, addr: string)
    requires Reports(c, v) && Status.Unclaimed(v.reading.store, addr) && L.Names(c.decisions, Alarm(addr))
    ensures Shows(v, addr)
  {
    var xs: seq<Decision>, out: seq<Decision> :| Status.Reported(c.decisions, xs, out, v.reading, v.addrs, v.min);
    NamedAfterPanel(c.decisions, xs, out, v, addr);
  }

  /** The decision a report holds about a group, and what it says. */
  lemma ShownIsSpoken(c: T.Call, v: Sight, addr: string) returns (d: Decision)
    requires Reports(c, v) && Status.Unclaimed(v.reading.store, addr) && Shows(v, addr)
    ensures d in c.decisions && Spoken(d, Alarm(addr)) && d.state == if ShowsDark(v, addr) then Down else Up
  {
    var panel :|
      Status.Panel(panel, v.reading) && v.min > 0 && Blackout.Capable(panel, v.addrs, v.min, addr);
    d := Blackout.GroupDecision(panel, v.addrs, v.min, addr);
    GroupIsReported(c, v, addr, panel);
    if ShowsDark(v, addr) {
      var dark :| Status.Panel(dark, v.reading) && Blackout.Dark(dark, v.addrs, addr);
      Status.OnePanel(dark, panel, v.reading);
    }
  }

  /** What a report says about a group, in terms of the book alone. */
  lemma BookSpeaks(c: T.Call, v: Sight, addr: string)
    requires Reports(c, v) && Status.Unclaimed(v.reading.store, addr)
    ensures L.Names(c.decisions, Alarm(addr)) <==> Shows(v, addr)
    ensures CalledDown(c, Alarm(addr)) <==> ShowsDark(v, addr)
    ensures OnlyDown(c, Alarm(addr)) <==> (Shows(v, addr) ==> ShowsDark(v, addr))
  {
    var s := Alarm(addr);
    ReportedOnce(c, v, addr);
    if Shows(v, addr) {
      var d := ShownIsSpoken(c, v, addr);
      NamedIn(c.decisions, d, s);
      forall e | e in c.decisions && Spoken(e, s) ensures e == d {
        OnlySpeaker(c.decisions, s, d, e);
      }
    } else {
      if d :| d in c.decisions && Spoken(d, s) {
        NamedIn(c.decisions, d, s);
      }
      if L.Names(c.decisions, s) {
        NamedIsShown(c, v, addr);
      }
    }
  }

  /** A blackout is sent only by a lantern whose own address book has shown the group. */
  lemma BlackoutsNeedOwnBook(cfg: T.Config, calls: seq<T.Call>, sights: seq<Sight>, self: Name, kind: T.Kind,
                             addr: string)
    requires ReportsAll(calls, sights) && forall v :: v in sights ==> Status.Unclaimed(v.reading.store, addr)
    requires T.Event(kind, Alarm(addr)) in T.SentBy(self, L.Run(cfg, calls).1)
    ensures exists v :: v in sights && Shows(v, addr)
  {
    PagesNeedOwnDecision(cfg, calls, self, kind, Alarm(addr));
    var i :| 0 <= i < |calls| && L.Names(calls[i].decisions, Alarm(addr));
    assert Reports(calls[i], sights[i]) && sights[i] in sights;
    NamedIsShown(calls[i], sights[i], addr);
  }

  // ---- When a blackout gets out ----

  /** At flash `m` the book has shown the group recently enough for the tracker not to have forgotten it. */
  ghost predicate ShownLately(sights: seq<Sight>, addr: string, m: int) {
    && 0 <= m < |sights|
    && exists l :: 0 <= l <= m && Shows(sights[l], addr) && sights[m].now - sights[l].now <= 72 * HOUR
  }

  /** From flash `j`, past the warmup, to the end the book never shows the group but dark, nor is it forgotten. */
  ghost predicate DarkSince(cfg: T.Config, sights: seq<Sight>, addr: string, j: nat) {
    && j < |sights| && ShowsDark(sights[j], addr) && sights[j].now - sights[0].now >= cfg.warmup
    && forall m :: j <= m < |sights| ==>
      (Shows(sights[m], addr) ==> ShowsDark(sights[m], addr)) && ShownLately(sights, addr, m)
  }

  /**
   At the last flash the book shows the group dark, and has done so since a flash past the warmup at least the
   delay earlier, without ever showing it anything but dark in between and without its being forgotten.
   */
  ghost predicate DarkForTheDelay(cfg: T.Config, sights: seq<Sight>, addr: string)
    requires sights != []
  {
    var last := sights[|sights| - 1];
    && ShowsDark(last, addr)
    && exists j: nat :: DarkSince(cfg, sights, addr, j) && last.now - sights[j].now >= cfg.holdDown
  }

  /** A lantern's run of reports, with nothing else filed under the alarm's name. */
  ghost predicate BookRun(calls: seq<T.Call>, sights: seq<Sight>, addr: string) {
    && ReportsAll(calls, sights) && L.Ordered(calls)
    && forall m :: 0 <= m < |sights| ==> ZERO_TIME < sights[m].now && Status.Unclaimed(sights[m].reading.store, addr)
  }

  lemma BookRunIsWellFed(calls: seq<T.Call>, sights: seq<Sight>, addr: string)
    requires BookRun(calls, sights, addr)
    ensures WellFed(calls, Alarm(addr))
  {
    forall m | 0 <= m < |calls| ensures ZERO_TIME < calls[m].now && Once(calls[m].decisions, Alarm(addr)) {
      assert Reports(calls[m], sights[m]);
      ReportedOnce(calls[m], sights[m], addr);
    }
  }

  lemma BookSpeaksAt(calls: seq<T.Call>, sights: seq<Sight>, addr: string, m: nat)
    requires BookRun(calls, sights, addr) && m < |calls|
    ensures calls[m].now == sights[m].now && calls[m].alive == sights[m].alive
    ensures L.Names(calls[m].decisions, Alarm(addr)) <==> Shows(sights[m], addr)
    ensures CalledDown(calls[m], Alarm(addr)) <==> ShowsDark(sights[m], addr)
    ensures OnlyDown(calls[m], Alarm(addr)) <==> (Shows(sights[m], addr) ==> ShowsDark(sights[m], addr))
  {
    assert Reports(calls[m], sights[m]);
    BookSpeaks(calls[m], sights[m], addr);
  }

  lemma FreshIsShownLately(calls: seq<T.Call>, sights: seq<Sight>, addr: string, m: nat)
    requires BookRun(calls, sights, addr) && m < |calls|
    ensures Fresh(calls, Alarm(addr), m) <==> ShownLately(sights, addr, m)
  {
    forall l | 0 <= l <= m
      ensures L.Names(calls[l].decisions, Alarm(addr)) <==> Shows(sights[l], addr)
      ensures calls[l].now == sights[l].now
    {
      BookSpeaksAt(calls, sights, addr, l);
    }
    if Fresh(calls, Alarm(addr), m) {
      var l :| 0 <= l <= m && L.Names(calls[l].decisions, Alarm(addr)) && calls[m].now - calls[l].now <= 72 * HOUR;
      assert Shows(sights[l], addr) && sights[m].now - sights[l].now <= 72 * HOUR;
    }
    if ShownLately(sights, addr, m) {
      var l :| 0 <= l <= m && Shows(sights[l], addr) && sights[m].now - sights[l].now <= 72 * HOUR;
      assert L.Names(calls[l].decisions, Alarm(addr)) && calls[m].now - calls[l].now <= 72 * HOUR;
    }
  }

  lemma BookRunBefore(calls: seq<T.Call>, sights: seq<Sight>, addr: string, i: nat)
    requires BookRun(calls, sights, addr) && i < |calls|
    ensures BookRun(calls[..i + 1], sights[..i + 1], addr)
  {
    var cs, vs := calls[..i + 1], sights[..i + 1];
    forall m | 0 <= m <= i ensures Reports(cs[m], vs[m]) {
      assert Reports(calls[m], sights[m]);
    }
  }

  /** What the tracker was told is what the book showed. */
  ghost predicate Mirrors(calls: seq<T.Call>, sights: seq<Sight>, addr: string) {
    && |calls| == |sights|
    && forall m :: 0 <= m < |calls| ==>
      && calls[m].now == sights[m].now && (CalledDown(calls[m], Alarm(addr)) <==> ShowsDark(sights[m], addr))
      && (OnlyDown(calls[m], Alarm(addr)) <==> (Shows(sights[m], addr) ==> ShowsDark(sights[m], addr)))
      && (Fresh(calls, Alarm(addr), m) <==> ShownLately(sights, addr, m))
  }

  lemma BookRunMirrors(calls: seq<T.Call>, sights: seq<Sight>, addr: string)
    requires BookRun(calls, sights, addr)
    ensures Mirrors(calls, sights, addr)
  {
    forall m | 0 <= m < |calls|
      ensures calls[m].now == sights[m].now && (CalledDown(calls[m], Alarm(addr)) <==> ShowsDark(sights[m], addr))
      ensures OnlyDown(calls[m], Alarm(addr)) <==> (Shows(sights[m], addr) ==> ShowsDark(sights[m], addr))
      ensures Fresh(calls, Alarm(addr), m) <==> ShownLately(sights, addr, m)
    {
      BookSpeaksAt(calls, sights, addr, m);
      FreshIsShownLately(calls, sights, addr, m);
    }
  }

  lemma DownFromIsDarkSince(cfg: T.Config, calls: seq<T.Call>, sights: seq<Sight>, addr: string, j: nat)
    requires Mirrors(calls, sights, addr) && DownFrom(cfg, calls, Alarm(addr), j)
    ensures DarkSince(cfg, sights, addr, j)
  {
    forall m | j <= m < |sights|
        ensures (Shows(sights[m], addr) ==> ShowsDark(sights[m], addr)) && ShownLately(sights, addr, m) {
      assert OnlyDown(calls[m], Alarm(addr)) && Fresh(calls, Alarm(addr), m);
    }
  }

  lemma DarkSinceIsDownFrom(cfg: T.Config, calls: seq<T.Call>, sights: seq<Sight>, addr: string, j: nat)
    requires Mirrors(calls, sights, addr) && DarkSince(cfg, sights, addr, j)
    ensures DownFrom(cfg, calls, Alarm(addr), j)
  {
    forall m | j <= m < |calls| ensures OnlyDown(calls[m], Alarm(addr)) && Fresh(calls, Alarm(addr), m) {
      assert ShownLately(sights, addr, m);
    }
  }

  /** ... and so is how long it has lasted. */
  lemma LastedIffDark(cfg: T.Config, before: seq<T.Call>, c: T.Call, sights: seq<Sight>, addr: string)
    requires Mirrors(before + [c], sights, addr)
    ensures CalledDown(c, Alarm(addr)) && Lasted(cfg, before, c, Alarm(addr)) <==> DarkForTheDelay(cfg, sights, addr)
  {
    var calls := before + [c];
    assert calls[|before|] == c;
    if Lasted(cfg, before, c, Alarm(addr)) {
      var j: nat :| DownFrom(cfg, calls, Alarm(addr), j) && c.now - calls[j].now >= cfg.holdDown;
      DownFromIsDarkSince(cfg, calls, sights, addr, j);
    }
    if DarkForTheDelay(cfg, sights, addr) {
      var j: nat :| DarkSince(cfg, sights, addr, j) && sights[|before|].now - sights[j].now >= cfg.holdDown;
      DarkSinceIsDownFrom(cfg, calls, sights, addr, j);
    }
  }

  /** The subject has been down for the delay exactly if the book has shown it dark for the delay. */
  lemma LastedIsDarkForTheDelay(cfg: T.Config, calls: seq<T.Call>, sights: seq<Sight>, addr: string, i: nat)
    requires BookRun(calls, sights, addr) && i < |calls|
    ensures CalledDown(calls[i], Alarm(addr)) && Lasted(cfg, calls[..i], calls[i], Alarm(addr))
       <==> DarkForTheDelay(cfg, sights[..i + 1], addr)
  {
    PrefixGrows(calls, i);
    BookSpeaksAt(calls, sights, addr, i);
    BookRunBefore(calls, sights, addr, i);
    BookRunMirrors(calls[..i + 1], sights[..i + 1], addr);
    LastedIffDark(cfg, calls[..i], calls[i], sights[..i + 1], addr);
  }

  /**
   What the elected lantern's own book and tracker have to say for a blackout to go out at flash `i`: the group
   is dark and not bouncing, and either it has now been dark for the delay without starting to bounce, or the
   alarm stands already and whoever sent it is gone.
   */
  ghost predicate BlackoutDue(cfg: T.Config, calls: seq<T.Call>, sights: seq<Sight>, addr: string, i: nat)
    requires |calls| == |sights| && i < |calls|
  {
    var t := Past(cfg, calls, Alarm(addr), i);
    && ShowsDark(sights[i], addr) && sights[i].now - sights[0].now >= cfg.warmup
    && Paging.Believed(t) != Paging.Bouncing
    && if Paging.CommittedIn(t) == Down then
         Paging.LastSender(t).Some? && Paging.LastSender(t).value !in sights[i].alive
       else
         DarkForTheDelay(cfg, sights[..i + 1], addr)
         && |Paging.Recent(Paging.CommitTimes(t) + [sights[i].now])| < T.FLAP_COUNT
  }

  lemma DueIsGoingOut(cfg: T.Config, calls: seq<T.Call>, sights: seq<Sight>, addr: string, i: nat)
    requires BookRun(calls, sights, addr) && i < |calls|
    ensures AlarmGoesOut(cfg, calls, Alarm(addr), i) <==> BlackoutDue(cfg, calls, sights, addr, i)
  {
    BookSpeaksAt(calls, sights, addr, i);
    BookSpeaksAt(calls, sights, addr, 0);
    LastedIsDarkForTheDelay(cfg, calls, sights, addr, i);
  }

  lemma OneSendsIff(cfg: T.Config, self: Name, calls: seq<T.Call>, sights: seq<Sight>, addr: string, i: nat)
    requires BookRun(calls, sights, addr) && i < |calls|
    ensures T.Event(T.WentDown, Alarm(addr)) in SentAt(cfg, self, calls, i)
       <==> self == E.Elected(cfg.score, Alarm(addr), sights[i].alive) && BlackoutDue(cfg, calls, sights, addr, i)
  {
    BookRunIsWellFed(calls, sights, addr);
    BookSpeaksAt(calls, sights, addr, i);
    DueIsGoingOut(cfg, calls, sights, addr, i);
    AlarmIsSentExactly(cfg, self, calls, Alarm(addr), i);
  }

  /**
   Agreeing stores are not enough for blackouts, and this is exactly what is, at every flash of every run and
   for every warmup and alert delay: somebody sends the alarm if and only if it is due by the elected lantern's
   own address book. What the books of all the others show, and what they announce, makes no difference.
   */
  lemma BlackoutIsSentIff(cfg: T.Config, fleet: seq<Name>, runs: seq<seq<T.Call>>, sights: seq<Sight>,
                          alive: seq<Name>, addr: string, i: nat, k: nat)
    requires |runs| == |fleet| && Paging.Distinct(fleet) && k < |fleet| && "" !in alive
    requires forall n :: 0 <= n < |runs| ==> i < |runs[n]| && Elements(runs[n][i].alive) == Elements(alive)
    requires BookRun(runs[k], sights, addr) && fleet[k] == E.Elected(cfg.score, Alarm(addr), alive)
    ensures (exists n :: 0 <= n < |fleet| && T.Event(T.WentDown, Alarm(addr)) in SentAt(cfg, fleet[n], runs[n], i))
       <==> BlackoutDue(cfg, runs[k], sights, addr, i)
  {
    OnlyTheElectedSends(cfg, fleet, runs, T.Event(T.WentDown, Alarm(addr)), alive, i, k);
    E.ElectionIsASetFunction(cfg.score, Alarm(addr), alive, runs[k][i].alive);
    BookSpeaksAt(runs[k], sights, addr, i);
    OneSendsIff(cfg, fleet[k], runs[k], sights, addr, i);
  }

  lemma QuietWithoutDark(cfg: T.Config, calls: seq<T.Call>, sights: seq<Sight>, addr: string, i: nat)
    requires BookRun(calls, sights, addr) && i < |calls| && !ShowsDark(sights[i], addr)
    ensures T.Event(T.WentDown, Alarm(addr)) !in Paging.Announced(LogAt(cfg, calls, i))
  {
    var s, log := Alarm(addr), LogAt(cfg, calls, i);
    if T.Event(T.WentDown, s) in Paging.Announced(log) {
      AnnouncedIsLived(log, T.WentDown, s);
      var m, winner :| m in L.TraceOf(log, s) && Announces(m, T.WentDown, winner);
      SpeakersSend(winner, log, s, m, T.WentDown);
      OneSendsIff(cfg, winner, calls, sights, addr, i);
    }
  }

  /**
   In particular an alarm that any lantern announces at a flash is lost there if the elected lantern's book does
   not show the group dark.
   */
  lemma AnnouncedByOneSentByNone(cfg: T.Config, fleet: seq<Name>, runs: seq<seq<T.Call>>, sights: seq<Sight>,
                                 alive: seq<Name>, addr: string, i: nat, k: nat, l: nat)
    requires |runs| == |fleet| && Paging.Distinct(fleet) && k < |fleet| && l < |fleet| && "" !in alive
    requires forall n :: 0 <= n < |runs| ==> i < |runs[n]| && Elements(runs[n][i].alive) == Elements(alive)
    requires BookRun(runs[k], sights, addr) && fleet[k] == E.Elected(cfg.score, Alarm(addr), alive)
    requires T.Event(T.WentDown, Alarm(addr)) in Paging.Announced(LogAt(cfg, runs[l], i)) && !ShowsDark(sights[i], addr)
    ensures l != k
    ensures forall n :: 0 <= n < |fleet| ==> T.Event(T.WentDown, Alarm(addr)) !in SentAt(cfg, fleet[n], runs[n], i)
  {
    BlackoutIsSentIff(cfg, fleet, runs, sights, alive, addr, i, k);
    if l == k {
      QuietWithoutDark(cfg, runs[k], sights, addr, i);
    }
  }
}
