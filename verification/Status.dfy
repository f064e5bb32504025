/**
 internal/lantern/lantern.go, the status: one verdict per subject the store holds, in (check, target)
 order, and the blackout verdicts drawn from them.
 */
module Status {
  import opened Base
  import opened Quorum
  import opened HoldDown
  import Blackout
  import T = Tracker
  import L = TrackerLife

  /** The order of the panel: by check, then by target. */
  ghost predicate Precedes(a: Subject, b: Subject) {
    Before(a.check, b.check) || (a.check == b.check && Before(a.target, b.target))
  }

  ghost predicate InPanelOrder(subjects: seq<Subject>) {
    forall i, j :: 0 <= i < j < |subjects| ==> Precedes(subjects[i], subjects[j])
  }

  function SubjectsOf(store: Store): set<Subject> {
    set k | k in store :: store[k].About()
  }

  method PickFirst(s: set<Subject>) returns (x: Subject)
    requires s != {}
    ensures x in s && forall y :: y in s ==> x == y || Precedes(x, y)
  {
    ghost var any :| any in s;
    var checks := set y | y in s :: y.check;
    assert any.check in checks;
    var check := PickLeast(checks);
    var targets := set y | y in s && y.check == check :: y.target;
    ghost var first :| first in s && first.check == check;
    assert first.target in targets;
    var target := PickLeast(targets);
    x := Subject(check, target);
    forall y | y in s ensures x == y || Precedes(x, y) {
      assert y.check in checks;
      assert y.check == check ==> y.target in targets;
    }
  }

  ghost predicate SortedSoFar(subjects: seq<Subject>, rest: set<Subject>, s: set<Subject>) {
    && rest <= s && Elements(subjects) == s - rest
    && InPanelOrder(subjects)
    && forall x, y :: x in subjects && y in rest ==> Precedes(x, y)
  }

  lemma SortStep(subjects: seq<Subject>, rest: set<Subject>, s: set<Subject>, x: Subject)
    requires SortedSoFar(subjects, rest, s)
    requires x in rest && forall y :: y in rest ==> x == y || Precedes(x, y)
    ensures SortedSoFar(subjects + [x], rest - {x}, s)
  {
    assert Elements(subjects + [x]) == Elements(subjects) + {x};
  }

  method SortSubjects(s: set<Subject>) returns (subjects: seq<Subject>)
    ensures InPanelOrder(subjects) && Elements(subjects) == s
  {
    subjects := [];
    var rest := s;
    while rest != {}
      invariant SortedSoFar(subjects, rest, s)
      decreases rest
    {
      var x := PickFirst(rest);
      SortStep(subjects, rest, s, x);
      subjects := subjects + [x];
      rest := rest - {x};
    }
  }

  lemma PrecedesOneWay(a: Subject, b: Subject)
    requires Precedes(a, b)
    ensures !Precedes(b, a)
  {
    if Before(a.check, b.check) {
      BeforeOneWay(a.check, b.check);
      BeforeIrreflexive(a.check);
    } else {
      BeforeOneWay(a.target, b.target);
      BeforeIrreflexive(a.check);
    }
  }

  /** There is only one panel order of a set of subjects. */
  lemma PanelOrderIsUnique(xs: seq<Subject>, ys: seq<Subject>)
    requires InPanelOrder(xs) && InPanelOrder(ys) && Elements(xs) == Elements(ys)
    ensures xs == ys
  {
    var less := (a: Subject, b: Subject) => Precedes(a, b);
    forall a, b | less(a, b) ensures !less(b, a) {
      PrecedesOneWay(a, b);
    }
    SortedUnique(less, xs, ys);
  }

  lemma PanelIsApart(subjects: seq<Subject>, i: nat, j: nat)
    requires InPanelOrder(subjects) && i < j < |subjects|
    ensures subjects[i] != subjects[j]
  {
    PrecedesOneWay(subjects[i], subjects[j]);
  }

  ghost predicate IsVerdict(d: Decision, s: Subject, r: Reading) {
    d == Verdict(s, BallotAt(r, s), r.lastKnown)
  }

  /** The verdicts of a reading on some subjects, one each, in the same order. */
  ghost predicate Verdicts(ds: seq<Decision>, subjects: seq<Subject>, r: Reading) {
    |ds| == |subjects| && forall i :: 0 <= i < |ds| ==> IsVerdict(ds[i], subjects[i], r)
  }

  lemma VerdictsGrow(ds: seq<Decision>, done: seq<Subject>, d: Decision, s: Subject, r: Reading)
    requires Verdicts(ds, done, r) && IsVerdict(d, s, r)
    ensures Verdicts(ds + [d], done + [s], r)
  {
    forall i | 0 <= i < |ds| ensures IsVerdict((ds + [d])[i], (done + [s])[i], r) {
      assert IsVerdict(ds[i], done[i], r);
    }
  }

  method DecideOne(s: Subject, all: seq<Observation>, ghost r: Reading, lastKnown: nat, maxAge: int, now: Time)
    returns (d: Decision)
    requires WellKeyed(r.store) && Enumerates(all, r.store) && r == Reading(r.store, lastKnown, maxAge, now)
    ensures IsVerdict(d, s, r)
  {
    d := Decide(s.target, s.check, all, lastKnown, maxAge, now);
    StoreBallot(all, r.store, s, maxAge, now);
  }

  lemma NamedIsHeld(all: seq<Observation>, store: Store)
    requires Enumerates(all, store)
    ensures (set o | o in all :: o.About()) == SubjectsOf(store)
  {
    forall s ensures s in (set o | o in all :: o.About()) <==> s in SubjectsOf(store) {
      if s in (set o | o in all :: o.About()) {
        var o :| o in all && o.About() == s;
        assert o in Elements(all);
      }
      if s in SubjectsOf(store) {
        var k :| k in store && store[k].About() == s;
        assert store[k] in store.Values;
        assert store[k] in Elements(all);
      }
    }
  }

  method DecideAll(all: seq<Observation>, ghost store: Store, lastKnown: nat, maxAge: int, now: Time)
    returns (ds: seq<Decision>, subjects: seq<Subject>)
    requires WellKeyed(store) && Enumerates(all, store)
    ensures InPanelOrder(subjects) && Elements(subjects) == SubjectsOf(store)
    ensures Verdicts(ds, subjects, Reading(store, lastKnown, maxAge, now))
    ensures forall i :: 0 <= i < |ds| ==> ds[i].swarmSize == lastKnown
    ensures forall i, j :: 0 <= i < j < |ds| ==>
      Before(ds[i].check, ds[j].check) || (ds[i].check == ds[j].check && Before(ds[i].target, ds[j].target))
  {
    var named := set o | o in all :: o.About();
    NamedIsHeld(all, store);
    subjects := SortSubjects(named);
    ds := [];
    ghost var r := Reading(store, lastKnown, maxAge, now);
    for i := 0 to |subjects|
      invariant Verdicts(ds, subjects[..i], r)
    {
      var d := DecideOne(subjects[i], all, r, lastKnown, maxAge, now);
      PrefixGrows(subjects, i);
      VerdictsGrow(ds, subjects[..i], d, subjects[i], r);
      ds := ds + [d];
    }
    assert subjects[..|subjects|] == subjects;
    forall i | 0 <= i < |ds| ensures ds[i].About() == subjects[i] && ds[i].swarmSize == lastKnown {
      assert IsVerdict(ds[i], subjects[i], r);
    }
    forall i, j | 0 <= i < j < |ds|
      ensures Before(ds[i].check, ds[j].check) || (ds[i].check == ds[j].check && Before(ds[i].target, ds[j].target))
    {
      assert Precedes(subjects[i], subjects[j]);
      assert ds[i].About() == subjects[i] && ds[j].About() == subjects[j];
    }
  }

  lemma VerdictIsAbout(s: Subject, b: Ballot, lastKnown: nat)
    ensures Verdict(s, b, lastKnown).About() == s
  {
  }

  /** The panel of a reading: a verdict on every subject held, in panel order. */
  ghost predicate Panel(ds: seq<Decision>, r: Reading) {
    exists subjects :: InPanelOrder(subjects) && Elements(subjects) == SubjectsOf(r.store) && Verdicts(ds, subjects, r)
  }

  ghost predicate Reported(ds: seq<Decision>, panel: seq<Decision>, blackouts: seq<Decision>, r: Reading,
                           addrs: Blackout.Addresses, min: int) {
    ds == panel + blackouts && Panel(panel, r) && Blackout.BlackoutsOf(blackouts, panel, addrs, min)
  }

  /** What a flash hands to the tracker: the panel, then the blackouts its own address book makes of it. */
  ghost predicate Report(ds: seq<Decision>, r: Reading, addrs: Blackout.Addresses, min: int) {
    exists panel, blackouts :: Reported(ds, panel, blackouts, r, addrs, min)
  }

  /** A panel names each subject once and every decision on it is the verdict on what it names. */
  lemma PanelSpeaksOnce(ds: seq<Decision>, r: Reading)
    requires Panel(ds, r)
    ensures Blackout.Apart(ds)
    ensures forall d :: d in ds ==>
      d.About() in SubjectsOf(r.store) && d == Verdict(d.About(), BallotAt(r, d.About()), r.lastKnown)
    ensures forall s :: s in SubjectsOf(r.store) ==> exists i :: 0 <= i < |ds| && ds[i].About() == s
  {
    var subjects :| InPanelOrder(subjects) && Elements(subjects) == SubjectsOf(r.store) && Verdicts(ds, subjects, r);
    forall i | 0 <= i < |ds| ensures ds[i].About() == subjects[i] && subjects[i] in SubjectsOf(r.store) {
      assert IsVerdict(ds[i], subjects[i], r);
      VerdictIsAbout(subjects[i], BallotAt(r, subjects[i]), r.lastKnown);
      assert subjects[i] in Elements(subjects);
    }
    forall i, j | 0 <= i < j < |ds| ensures ds[i].About() != ds[j].About() {
      PanelIsApart(subjects, i, j);
    }
    forall s | s in SubjectsOf(r.store) ensures exists i :: 0 <= i < |ds| && ds[i].About() == s {
      assert s in Elements(subjects);
      var i :| 0 <= i < |subjects| && subjects[i] == s;
      assert ds[i].About() == s;
    }
  }

  /** A reading has only one panel. */
  lemma OnePanel(ds: seq<Decision>, es: seq<Decision>, r: Reading)
    requires Panel(ds, r) && Panel(es, r)
    ensures ds == es
  {
    var xs :| InPanelOrder(xs) && Elements(xs) == SubjectsOf(r.store) && Verdicts(ds, xs, r);
    var ys :| InPanelOrder(ys) && Elements(ys) == SubjectsOf(r.store) && Verdicts(es, ys, r);
    PanelOrderIsUnique(xs, ys);
    forall i | 0 <= i < |ds| ensures ds[i] == es[i] {
      assert IsVerdict(ds[i], xs[i], r) && IsVerdict(es[i], ys[i], r);
    }
  }

  /** The report of a reading is its status. */
  lemma ReportIsStatus(ds: seq<Decision>, panel: seq<Decision>, blackouts: seq<Decision>, r: Reading,
                       addrs: Blackout.Addresses, min: int)
    requires Reported(ds, panel, blackouts, r, addrs, min)
    ensures StatusOf(ds, r)
  {
    PanelSpeaksOnce(panel, r);
    forall k | k in r.store ensures exists d :: d in ds && d.About() == r.store[k].About() {
      assert r.store[k].About() in SubjectsOf(r.store);
      var i :| 0 <= i < |panel| && panel[i].About() == r.store[k].About();
      assert ds[i] == panel[i];
    }
    forall s: Subject | s.check != "blackout" ensures Once(ds, s) {
      forall i, j | 0 <= i < j < |ds| ensures ds[i].About() != s || ds[j].About() != s {
        if j >= |panel| {
          assert blackouts[j - |panel|] in blackouts;
        }
      }
    }
  }

  // ---- A blackout that ends is closed ----

  /** Nobody files words under the name the lantern gives its own blackouts. */
  predicate Unclaimed(store: Store, addr: string) {
    Subject("blackout", addr) !in SubjectsOf(store)
  }

  lemma BlackoutSpokenOnce(ds: seq<Decision>, panel: seq<Decision>, blackouts: seq<Decision>, r: Reading,
                           addrs: Blackout.Addresses, min: int, addr: string)
    requires Reported(ds, panel, blackouts, r, addrs, min) && Unclaimed(r.store, addr)
    ensures Once(ds, Subject("blackout", addr))
  {
    PanelSpeaksOnce(panel, r);
    forall i, j | 0 <= i < j < |ds| && ds[j].About() == Subject("blackout", addr)
      ensures ds[i].About() != Subject("blackout", addr)
    {
      if i < |panel| {
        assert panel[i] in panel;
      } else {
        var b, c := blackouts[i - |panel|], blackouts[j - |panel|];
        assert Before(b.target, c.target);
        BeforeIrreflexive(b.target);
      }
    }
  }

  lemma SpokenUp(cfg: T.Config, s: Subject, r: T.Row, c: T.Call, d: Decision)
    requires Once(c.decisions, s) && d in c.decisions && Spoken(d, s) && d.state == Up
    ensures L.Feed(cfg, s, r, c.decisions, c.alive, c.now).0.Committed() == Up
  {
    SoleDecision(cfg, s, r, c.decisions, d, c.alive, c.now);
    assert T.StepRow(cfg, s, r, Up, c.alive, c.now).0.Committed() == Up;
  }

  /**
   The alarm closes. Once a capable group has been on a panel and the same subjects still live at the
   address, a status on which one of them is no longer down commits the blackout Up in that very call,
   whatever else has changed on the panel and in the address book.
   */
  lemma BlackoutCloses(cfg: T.Config, calls: seq<T.Call>, c: T.Call,
                       before: seq<Decision>, was: Reading, book: Blackout.Addresses,
                       panel: seq<Decision>, blackouts: seq<Decision>, r: Reading, addrs: Blackout.Addresses,
                       min: int, addr: string)
    requires min > 0 && Panel(before, was) && Blackout.Capable(before, book, min, addr)
    requires Reported(c.decisions, panel, blackouts, r, addrs, min) && Unclaimed(r.store, addr)
    requires Blackout.Residents(panel, addrs, addr) == Blackout.Residents(before, book, addr)
    requires !Blackout.Dark(panel, addrs, addr)
    requires c.now - L.Life(cfg, Subject("blackout", addr), calls + [c]).start >= cfg.warmup
    ensures T.RowOf(L.Run(cfg, calls + [c]).0.book, Subject("blackout", addr)).Committed() == Up
  {
    var s := Subject("blackout", addr);
    PanelSpeaksOnce(before, was);
    PanelSpeaksOnce(panel, r);
    Blackout.CapableIgnoresStates(before, panel, book, addrs, min, addr);
    BlackoutSpokenOnce(c.decisions, panel, blackouts, r, addrs, min, addr);
    var d := Blackout.GroupDecision(panel, addrs, min, addr);
    assert d in blackouts && d in c.decisions;
    assert (calls + [c])[..|calls|] == calls;
    L.RunIsLives(cfg, calls + [c], s);
    SpokenUp(cfg, s, L.SweptRow(s, L.Life(cfg, s, calls).row, c).0, c, d);
  }
}
