/**
 A split swarm never pages the same subject from both sides: the quorum rule over the roster ledger, carried through
 the tracker over whole runs.
 */
module Standoff {
  import opened Base
  import opened Quorum
  import opened Tracker
  import opened TrackerLife
  import opened Paging
  import opened HoldDown
  import opened Alarms
  import opened Partition
  import R = Roster

  // ---- Nobody is paged about what is only ever up ----

  /** Nothing has ever been announced, and there is nothing to announce. */
  predicate Untroubled(t: seq<Mark>) {
    NeverRaised(t) && forall m :: m in t && m.Step? ==> m.page.None?
  }

  ghost predicate OnlyUp(c: Call, s: Subject) {
    forall d :: d in c.decisions && Spoken(d, s) ==> d.state == Up
  }

  /** Over its whole run a lantern announces nothing at all about the subject. */
  ghost predicate Silent(cfg: Config, calls: seq<Call>, s: Subject) {
    forall kind :: Event(kind, s) !in Announced(Run(cfg, calls).1)
  }

  lemma UpKeepsQuiet(cfg: Config, s: Subject, t: seq<Mark>, alive: seq<Name>, now: Time)
    requires Untroubled(t)
    ensures Untroubled(t + [Called(cfg, s, t, Up, alive, now)])
  {
    var m := Called(cfg, s, t, Up, alive, now);
    assert Init(t + [m]) == t;
    assert m.page == None;
  }

  lemma OneCallStaysQuiet(cfg: Config, calls: seq<Call>, s: Subject, i: nat)
    requires WellFed(calls, s) && i < |calls| && OnlyUp(calls[i], s) && Untroubled(Past(cfg, calls, s, i))
    ensures Untroubled(Past(cfg, calls, s, i + 1))
  {
    var c, t, t' := calls[i], Past(cfg, calls, s, i), Past(cfg, calls, s, i + 1);
    PastSteps(cfg, calls, s, i);
    if d :| d in c.decisions && Spoken(d, s) && t' == t + [Called(cfg, s, t, d.state, c.alive, c.now)] {
      UpKeepsQuiet(cfg, s, t, c.alive, c.now);
    }
  }

  lemma {:induction false} UpIsQuiet(cfg: Config, calls: seq<Call>, s: Subject, i: nat)
    requires WellFed(calls, s) && i <= |calls| && forall k :: 0 <= k < i ==> OnlyUp(calls[k], s)
    ensures Untroubled(Past(cfg, calls, s, i))
  {
    if i > 0 {
      UpIsQuiet(cfg, calls, s, i - 1);
      OneCallStaysQuiet(cfg, calls, s, i - 1);
    }
  }

  lemma UpIsSilent(cfg: Config, calls: seq<Call>, s: Subject)
    requires WellFed(calls, s) && forall c :: c in calls ==> OnlyUp(c, s)
    ensures Silent(cfg, calls, s)
  {
    forall kind ensures Event(kind, s) !in Announced(Run(cfg, calls).1) {
      assert calls[..|calls|] == calls;
      UpIsQuiet(cfg, calls, s, |calls|);
      if Event(kind, s) in Announced(Run(cfg, calls).1) {
        AnnouncedIsLived(Run(cfg, calls).1, kind, s);
      }
    }
  }

  // ---- Two sides of a split ----

  /**
   What one lantern goes through: what its membership has seen by each flash, what it reads there, and what its
   tracker is called with.
   */
  datatype Side = Side(id: Name, histories: seq<seq<R.Event>>, readings: seq<Reading>, calls: seq<Call>)

  /** At flash `k` the tracker is called with the status, read off the ledger that history left. */
  ghost predicate Reads(x: Side, declared: seq<Name>, k: nat)
    requires k < |x.calls| == |x.readings| == |x.histories|
  {
    && StatusOf(x.calls[k].decisions, x.readings[k])
    && x.readings[k].lastKnown == |R.Run(x.id, declared, x.histories[k]).everSeen|
  }

  /** A lantern whose reports are its status throughout, and to which only these voters ever speak about `s`. */
  ghost predicate CutOff(x: Side, declared: seq<Name>, voters: set<Name>, s: Subject) {
    && |x.calls| == |x.readings| == |x.histories| && Ordered(x.calls)
    && forall k :: 0 <= k < |x.calls| ==>
      ZERO_TIME < x.calls[k].now && Reads(x, declared, k) && BallotAt(x.readings[k], s).Keys <= voters
  }

  /** What `id` decides about `s` from that history and reading. */
  ghost function DecidedAt(id: Name, declared: seq<Name>, history: seq<R.Event>, r: Reading, s: Subject): Decision {
    Decided(id, declared, history, r.store, s, r.maxAge, r.at)
  }

  /** A flash that calls the subject anything but up decided so from its own ledger and store. */
  lemma TroubleIsDecided(x: Side, declared: seq<Name>, voters: set<Name>, s: Subject, k: nat)
    requires CutOff(x, declared, voters, s) && s.check != "blackout" && s.target !in voters
    requires k < |x.calls| && !OnlyUp(x.calls[k], s)
    ensures Alarm(DecidedAt(x.id, declared, x.histories[k], x.readings[k], s))
    ensures BallotAt(x.readings[k], s).Keys <= voters
  {
    var r := x.readings[k];
    assert Reads(x, declared, k);
    var d :| d in x.calls[k].decisions && Spoken(d, s) && d.state != Up;
    assert d == Verdict(s, BallotAt(r, s), r.lastKnown);
    VerdictMeansMajority(s, BallotAt(r, s), r.lastKnown);
  }

  /** The voters of the two sides are different declared lanterns, and the subject's own is not among them. */
  predicate Apart(declared: seq<Name>, voters: set<Name>, others: set<Name>, s: Subject) {
    voters !! others && voters + others <= (set n | n in declared && n != "") && s.target !in voters + others
  }

  lemma PartsApart(some: set<Name>, voters: set<Name>, more: set<Name>, others: set<Name>, all: set<Name>)
    requires some <= voters && more <= others && voters !! others && voters + others <= all
    ensures some !! more && some + more <= all
  {
  }

  lemma NotBothAlarm(declared: seq<Name>, s: Subject, voters: set<Name>, others: set<Name>,
                     id1: Name, history1: seq<R.Event>, r1: Reading, id2: Name, history2: seq<R.Event>, r2: Reading)
    requires Apart(declared, voters, others, s)
    requires BallotAt(r1, s).Keys <= voters && BallotAt(r2, s).Keys <= others
    ensures !Alarm(DecidedAt(id1, declared, history1, r1, s)) || !Alarm(DecidedAt(id2, declared, history2, r2, s))
  {
    PartsApart(BallotAt(r1, s).Keys, voters, BallotAt(r2, s).Keys, others, set n | n in declared && n != "");
    PartitionSafety(declared, s, id1, history1, r1.store, r1.maxAge, r1.at,
                    id2, history2, r2.store, r2.maxAge, r2.at);
  }

  lemma NotBothTroubled(declared: seq<Name>, s: Subject, x: Side, voters: set<Name>, k: nat,
                        y: Side, others: set<Name>, l: nat)
    requires CutOff(x, declared, voters, s) && CutOff(y, declared, others, s) && s.check != "blackout"
    requires Apart(declared, voters, others, s) && k < |x.calls| && l < |y.calls|
    ensures OnlyUp(x.calls[k], s) || OnlyUp(y.calls[l], s)
  {
    if !OnlyUp(x.calls[k], s) && !OnlyUp(y.calls[l], s) {
      TroubleIsDecided(x, declared, voters, s, k);
      TroubleIsDecided(y, declared, others, s, l);
      NotBothAlarm(declared, s, voters, others, x.id, x.histories[k], x.readings[k],
                   y.id, y.histories[l], y.readings[l]);
    }
  }

  lemma UntroubledSideIsSilent(cfg: Config, declared: seq<Name>, voters: set<Name>, x: Side, s: Subject)
    requires CutOff(x, declared, voters, s) && s.check != "blackout"
    requires forall k :: 0 <= k < |x.calls| ==> OnlyUp(x.calls[k], s)
    ensures Silent(cfg, x.calls, s)
  {
    forall c | c in x.calls ensures ZERO_TIME < c.now && OnlyUp(c, s) {
      var k :| 0 <= k < |x.calls| && x.calls[k] == c;
      assert Reads(x, declared, k);
    }
    forall k | 0 <= k < |x.calls| ensures StatusOf(x.calls[k].decisions, x.readings[k]) {
      assert Reads(x, declared, k);
    }
    StatusIsWellFed(x.calls, x.readings, s);
    UpIsSilent(cfg, x.calls, s);
  }

  /**
   Split-brain safety, over whole runs and up to the page: of two lanterns given the same declared members, to
   which disjoint declared voters speak about a subject that does not speak for itself, one never announces
   anything at all about it, whatever memberships, clocks, warmups and delays either of them goes through.
   */
  lemma OneSideStaysSilent(declared: seq<Name>, s: Subject, cfg: Config, x: Side, voters: set<Name>,
                           other: Config, y: Side, others: set<Name>)
    requires CutOff(x, declared, voters, s) && CutOff(y, declared, others, s) && s.check != "blackout"
    requires Apart(declared, voters, others, s)
    ensures Silent(cfg, x.calls, s) || Silent(other, y.calls, s)
  {
    if k: nat :| k < |x.calls| && !OnlyUp(x.calls[k], s) {
      forall l | 0 <= l < |y.calls| ensures OnlyUp(y.calls[l], s) {
        NotBothTroubled(declared, s, x, voters, k, y, others, l);
      }
      UntroubledSideIsSilent(other, declared, others, y, s);
    } else {
      UntroubledSideIsSilent(cfg, declared, voters, x, s);
    }
  }
}
