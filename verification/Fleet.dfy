/**
 A fleet whose stores have converged pages exactly once: what lanterns may still disagree on, the detail
 a flash has trimmed, reaches no verdict and no page.
 */
module Fleet {
  import opened Base
  import opened Quorum
  import opened Memory
  import T = Tracker
  import L = TrackerLife
  import Paging
  import opened HoldDown
  import Blackout
  import Status

  /** The stores hold the same words on `s`, up to detail. */
  ghost predicate AgreeOn(store1: Store, store2: Store, s: Subject) {
    forall n ::
      var k := Key(n, s.check, s.target);
      (k in store1 <==> k in store2) && (k in store1 ==> Alike(store1[k], store2[k]))
  }

  function Untold(d: Decision): Decision {
    d.(detail := "")
  }

  lemma AlikeCounts(store1: Store, store2: Store, s: Subject, maxAge: int, now: Time, n: Name)
    requires AgreeOn(store1, store2, s)
    ensures
      var k := Key(n, s.check, s.target);
      k in store1 ==> Bare(store1[k]).seen == store1[k].seen && Bare(store2[k]).seen == store2[k].seen
                      && store1[k].About() == store2[k].About()
                          && Live(store1[k], maxAge, now) == Live(store2[k], maxAge, now)
  {
    var k := Key(n, s.check, s.target);
    if k in store1 {
      assert Alike(store1[k], store2[k]);
      assert store1[k].About() == Bare(store1[k]).About() == Bare(store2[k]).About();
      assert Live(store1[k], maxAge, now) == Live(Bare(store1[k]), maxAge, now);
    }
  }

  lemma AlikeBallots(store1: Store, store2: Store, s: Subject, maxAge: int, now: Time)
    requires AgreeOn(store1, store2, s)
    ensures
      var b, c := BallotOf(store1, s, maxAge, now), BallotOf(store2, s, maxAge, now);
      b.Keys == c.Keys && forall n :: n in b ==> Alike(b[n], c[n])
  {
    var b, c := BallotOf(store1, s, maxAge, now), BallotOf(store2, s, maxAge, now);
    forall n ensures (n in b <==> n in c) && (n in b ==> Alike(b[n], c[n])) {
      AlikeCounts(store1, store2, s, maxAge, now, n);
    }
  }

  lemma AlikeCountsAlike(b: Ballot, c: Ballot)
    requires b.Keys == c.Keys && forall n :: n in b ==> Alike(b[n], c[n])
    ensures Complaints(b) == Complaints(c) && Downs(b) == Downs(c) && |b| == |c|
    ensures forall n :: n in b ==> b[n].state == c[n].state
  {
    forall n | n in b ensures b[n].state == c[n].state {
      assert Alike(b[n], c[n]);
      assert Bare(b[n]).state == b[n].state && Bare(c[n]).state == c[n].state;
    }
    assert |b| == |b.Keys| && |c| == |c.Keys|;
  }

  lemma AlikeVerdicts(s: Subject, b: Ballot, c: Ballot, lastKnown: nat)
    requires b.Keys == c.Keys && forall n :: n in b ==> Alike(b[n], c[n])
    ensures Untold(Verdict(s, b, lastKnown)) == Untold(Verdict(s, c, lastKnown))
  {
    AlikeCountsAlike(b, c);
  }

  /** Two lanterns whose stores agree up to detail reach the same verdict, up to detail. */
  lemma AgreeingStoresDecideAlike(store1: Store, store2: Store, s: Subject, lastKnown: nat, maxAge: int, now: Time)
    requires AgreeOn(store1, store2, s)
    ensures Untold(Verdict(s, BallotOf(store1, s, maxAge, now), lastKnown))
        == Untold(Verdict(s, BallotOf(store2, s, maxAge, now), lastKnown))
  {
    AlikeBallots(store1, store2, s, maxAge, now);
    AlikeVerdicts(s, BallotOf(store1, s, maxAge, now), BallotOf(store2, s, maxAge, now), lastKnown);
  }

  // ---- The tracker reads no details ----

  function UntoldAll(ds: seq<Decision>): seq<Decision> {
    seq(|ds|, i requires 0 <= i < |ds| => Untold(ds[i]))
  }

  function UntoldCall(c: T.Call): T.Call {
    c.(decisions := UntoldAll(c.decisions))
  }

  function UntoldCalls(calls: seq<T.Call>): seq<T.Call> {
    seq(|calls|, i requires 0 <= i < |calls| => UntoldCall(calls[i]))
  }

  lemma {:induction false} JudgeAllReadsNoDetail(cfg: T.Config, b: T.Book, ds: seq<Decision>, alive: seq<Name>,
                                                 now: Time)
    ensures T.JudgeAll(cfg, b, UntoldAll(ds), alive, now) == T.JudgeAll(cfg, b, ds, alive, now)
  {
    if ds != [] {
      var n := |ds| - 1;
      assert UntoldAll(ds)[..n] == UntoldAll(ds[..n]);
      JudgeAllReadsNoDetail(cfg, b, ds[..n], alive, now);
      assert UntoldAll(ds)[n] == Untold(ds[n]) && Untold(ds[n]).About() == ds[n].About();
    }
  }

  lemma MentionedReadsNoDetail(b: T.Book, ds: seq<Decision>, now: Time)
    ensures T.Mentioned(b, UntoldAll(ds), now) == T.Mentioned(b, ds, now)
  {
    var us := UntoldAll(ds);
    assert forall j :: 0 <= j < |ds| ==> us[j].About() == ds[j].About();
    forall s ensures T.NamedBefore(us, |us|, s) <==> T.NamedBefore(ds, |ds|, s) {
      if T.NamedBefore(ds, |ds|, s) {
        var j :| 0 <= j < |ds| && ds[j].About() == s;
        assert us[j].About() == s;
      }
    }
    T.NamedIsSet(us);
    T.NamedIsSet(ds);
    assert (set d | d in us :: d.About()) == (set d | d in ds :: d.About());
  }

  lemma ObservedReadsNoDetail(cfg: T.Config, m: T.Memory, c: T.Call)
    ensures T.Observed(cfg, m, UntoldCall(c)) == T.Observed(cfg, m, c)
  {
    MentionedReadsNoDetail(m.book, c.decisions, c.now);
    var b := T.Mentioned(m.book, c.decisions, c.now);
    JudgeAllReadsNoDetail(cfg, T.Without(b, T.Stale(b, c.now)), c.decisions, c.alive, c.now);
  }

  lemma {:induction false} RunReadsNoDetail(cfg: T.Config, calls: seq<T.Call>)
    ensures L.Run(cfg, UntoldCalls(calls)) == L.Run(cfg, calls)
  {
    if calls != [] {
      var n := |calls| - 1;
      assert UntoldCalls(calls)[..n] == UntoldCalls(calls[..n]);
      RunReadsNoDetail(cfg, calls[..n]);
      ObservedReadsNoDetail(cfg, L.Run(cfg, calls[..n]).0, calls[n]);
    }
  }

  // ---- From stores to reports ----

  /** What one lantern goes by at one flash: its store and roster, its own address book, and whom it believes alive. */
  datatype Sight = Sight(reading: Reading, addrs: Blackout.Addresses, min: int, alive: seq<Name>, now: Time)

  /** The call is the report of that sight. */
  ghost predicate Reports(c: T.Call, v: Sight) {
    c.alive == v.alive && c.now == v.now && Status.Report(c.decisions, v.reading, v.addrs, v.min)
  }

  /** The stores agree on every subject up to detail, and everything else agrees exactly. */
  ghost predicate SameSight(v: Sight, w: Sight) {
    && WellKeyed(v.reading.store) && WellKeyed(w.reading.store)
    && (forall s :: AgreeOn(v.reading.store, w.reading.store, s))
    && v.(reading := w.reading) == w
    && v.reading.(store := w.reading.store) == w.reading
  }

  lemma SameSubjectsHeld(store1: Store, store2: Store)
    requires WellKeyed(store1) && WellKeyed(store2) && forall s :: AgreeOn(store1, store2, s)
    ensures Status.SubjectsOf(store1) <= Status.SubjectsOf(store2)
  {
    forall k | k in store1 ensures store1[k].About() in Status.SubjectsOf(store2) {
      assert AgreeOn(store1, store2, Subject(k.check, k.target));
      assert Key(k.observer, k.check, k.target) == k == KeyOf(store1[k]);
      assert k in store2 && KeyOf(store2[k]) == k;
    }
  }

  /** Up to detail, two lists decide the same things about the same subjects in the same order. */
  predicate AlikeLists(xs: seq<Decision>, ys: seq<Decision>) {
    |xs| == |ys| && forall i :: 0 <= i < |xs| ==> Untold(xs[i]) == Untold(ys[i])
  }

  lemma AgreeingIsMutual(store1: Store, store2: Store)
    requires forall s :: AgreeOn(store1, store2, s)
    ensures forall s :: AgreeOn(store2, store1, s)
  {
    forall s ensures AgreeOn(store2, store1, s) {
      assert AgreeOn(store1, store2, s);
    }
  }

  lemma SamePanel(xs: seq<Decision>, ys: seq<Decision>, v: Sight, w: Sight)
    requires SameSight(v, w) && Status.Panel(xs, v.reading) && Status.Panel(ys, w.reading)
    ensures AlikeLists(xs, ys)
  {
    var r1, r2 := v.reading, w.reading;
    var ss :| Status.InPanelOrder(ss) && Elements(ss) == Status.SubjectsOf(r1.store) && Status.Verdicts(xs, ss, r1);
    var ts :| Status.InPanelOrder(ts) && Elements(ts) == Status.SubjectsOf(r2.store) && Status.Verdicts(ys, ts, r2);
    AgreeingIsMutual(r1.store, r2.store);
    SameSubjectsHeld(r1.store, r2.store);
    SameSubjectsHeld(r2.store, r1.store);
    Status.PanelOrderIsUnique(ss, ts);
    forall i | 0 <= i < |xs| ensures Untold(xs[i]) == Untold(ys[i]) {
      assert Status.IsVerdict(xs[i], ss[i], r1) && Status.IsVerdict(ys[i], ts[i], r2);
      AgreeingStoresDecideAlike(r1.store, r2.store, ss[i], r1.lastKnown, r1.maxAge, r1.at);
    }
  }

  lemma UntoldKeeps(d: Decision, e: Decision)
    requires Untold(d) == Untold(e)
    ensures d.About() == e.About() && d.state == e.state && d.target == e.target
  {
    assert d.About() == Untold(d).About() && d.state == Untold(d).state && d.target == Untold(d).target;
    assert e.About() == Untold(e).About() && e.state == Untold(e).state && e.target == Untold(e).target;
  }

  lemma SameGroup(xs: seq<Decision>, ys: seq<Decision>, addrs: Blackout.Addresses, min: nat, a: string)
    requires AlikeLists(xs, ys)
    ensures Blackout.Capable(xs, addrs, min, a) <==> Blackout.Capable(ys, addrs, min, a)
    ensures Blackout.GroupDecision(xs, addrs, min, a) == Blackout.GroupDecision(ys, addrs, min, a)
  {
    forall i | 0 <= i < |xs| ensures xs[i].About() == ys[i].About() && xs[i].state == ys[i].state
        && xs[i].target == ys[i].target {
      UntoldKeeps(xs[i], ys[i]);
    }
    assert Blackout.Members(xs, addrs, a) == Blackout.Members(ys, addrs, a);
    assert Blackout.DownMembers(xs, addrs, a) == Blackout.DownMembers(ys, addrs, a);
    assert Blackout.Sites(xs, addrs, a) == Blackout.Sites(ys, addrs, a);
  }

  lemma SameBlackouts(out1: seq<Decision>, xs: seq<Decision>, out2: seq<Decision>, ys: seq<Decision>,
                      addrs: Blackout.Addresses, min: int)
    requires AlikeLists(xs, ys) && Blackout.BlackoutsOf(out1, xs, addrs, min)
        && Blackout.BlackoutsOf(out2, ys, addrs, min)
    ensures out1 == out2
  {
    if min > 0 {
      forall d ensures d in Elements(out1) <==> d in Elements(out2) {
        SameGroup(xs, ys, addrs, min, d.target);
      }
      var less := (d: Decision, e: Decision) => Before(d.target, e.target);
      forall d, e | less(d, e) ensures !less(e, d) {
        BeforeOneWay(d.target, e.target);
      }
      SortedUnique(less, out1, out2);
    }
  }

  lemma UntoldJoins(xs: seq<Decision>, ys: seq<Decision>, out: seq<Decision>)
    requires AlikeLists(xs, ys)
    ensures UntoldAll(xs + out) == UntoldAll(ys + out)
  {
  }

  /** Lanterns with the same sight hand their trackers the same report, up to detail. */
  lemma SameSightSameReport(c: T.Call, v: Sight, d: T.Call, w: Sight)
    requires Reports(c, v) && Reports(d, w) && SameSight(v, w)
    ensures UntoldCall(c) == UntoldCall(d)
  {
    var xs, out1 :| Status.Reported(c.decisions, xs, out1, v.reading, v.addrs, v.min);
    var ys, out2 :| Status.Reported(d.decisions, ys, out2, w.reading, w.addrs, w.min);
    SamePanel(xs, ys, v, w);
    SameBlackouts(out1, xs, out2, ys, v.addrs, v.min);
    UntoldJoins(xs, ys, out1);
  }

  // ---- The fleet ----

  /** Flash by flash, the calls are the reports of what this lantern saw. */
  ghost predicate ReportsAll(calls: seq<T.Call>, sights: seq<Sight>) {
    |calls| == |sights| && forall k :: 0 <= k < |calls| ==> Reports(calls[k], sights[k])
  }

  ghost predicate SameSights(sights: seq<Sight>, others: seq<Sight>) {
    |sights| == |others| && forall k :: 0 <= k < |sights| ==> SameSight(sights[k], others[k])
  }

  lemma SameSightsSameCalls(calls: seq<T.Call>, sights: seq<Sight>, others: seq<T.Call>, views: seq<Sight>)
    requires ReportsAll(calls, sights) && ReportsAll(others, views) && SameSights(sights, views)
    ensures UntoldCalls(calls) == UntoldCalls(others)
  {
    forall k | 0 <= k < |calls| ensures UntoldCall(calls[k]) == UntoldCall(others[k]) {
      SameSightSameReport(calls[k], sights[k], others[k], views[k]);
    }
  }

  lemma SameSightsSameRun(cfg: T.Config, calls: seq<T.Call>, sights: seq<Sight>, others: seq<T.Call>, views: seq<Sight>)
    requires ReportsAll(calls, sights) && ReportsAll(others, views) && SameSights(sights, views)
    ensures L.Run(cfg, calls) == L.Run(cfg, others)
  {
    SameSightsSameCalls(calls, sights, others, views);
    RunReadsNoDetail(cfg, calls);
    RunReadsNoDetail(cfg, others);
  }

  lemma ReportsAreManned(calls: seq<T.Call>, sights: seq<Sight>, fleet: seq<Name>)
    requires ReportsAll(calls, sights) && forall v :: v in sights ==> Paging.Manned(v.alive, fleet)
    ensures forall c :: c in calls ==> Paging.Manned(c.alive, fleet)
  {
    forall c | c in calls ensures Paging.Manned(c.alive, fleet) {
      var j :| 0 <= j < |calls| && calls[j] == c;
      assert Reports(c, sights[j]) && sights[j] in sights;
    }
  }

  /** What each lantern logs, given what it was called with. */
  ghost function Logs(cfg: T.Config, runs: seq<seq<T.Call>>): (logs: seq<seq<T.Entry>>)
    ensures |logs| == |runs| && forall i :: 0 <= i < |logs| ==> logs[i] == L.Run(cfg, runs[i]).1
  {
    seq(|runs|, i requires 0 <= i < |runs| => L.Run(cfg, runs[i]).1)
  }

  /**
   Exactly-once paging without a shared mind. Every lantern reports to its tracker out of its own store,
   roster and address book; flash by flash the stores agree up to detail and the rest agrees. What the
   fleet sends together is what any one of them announced, once.
   */
  lemma ConvergedFleetPagesExactlyOnce(cfg: T.Config, fleet: seq<Name>, runs: seq<seq<T.Call>>,
                                       sights: seq<seq<Sight>>, k: nat)
    requires |fleet| == |runs| == |sights| && k < |fleet| && Paging.Distinct(fleet)
    requires forall i :: 0 <= i < |runs| ==> ReportsAll(runs[i], sights[i]) && SameSights(sights[i], sights[k])
    requires forall v :: v in sights[k] ==> Paging.Manned(v.alive, fleet)
    ensures Paging.AllSent(fleet, Logs(cfg, runs)) == Paging.Announced(L.Run(cfg, runs[k]).1)
  {
    forall i | 0 <= i < |runs| ensures L.Run(cfg, runs[i]) == L.Run(cfg, runs[k]) {
      SameSightsSameRun(cfg, runs[i], sights[i], runs[k], sights[k]);
    }
    ReportsAreManned(runs[k], sights[k], fleet);
    Paging.FleetPagesExactlyOnce(cfg, runs[k], fleet, Logs(cfg, runs));
  }
}
