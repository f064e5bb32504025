/**
 One subject's life in the tracker. `Life` follows a single row through a run of `Observe` calls and
 collects what happened to it; `RunIsLives` shows that the six maps and the log of a whole run are
 nothing but these lives side by side.
 */
module TrackerLife {
  import opened Base
  import opened Quorum
  import opened Tracker

  /** The whole tracker over a run of calls, with everything that was logged. */
  function Run(cfg: Config, calls: seq<Call>): (Memory, seq<Entry>) {
    if calls == [] then (Memory(ZERO_TIME, EMPTY_BOOK), [])
    else
      var (m, log) := Run(cfg, calls[..|calls| - 1]);
      var (m', more) := Observed(cfg, m, calls[|calls| - 1]);
      (m', log + more)
  }

  function MarkOf(e: Entry, s: Subject): seq<Mark> {
    match e
    case Judged(x, mark) => if x == s then [mark] else []
    case Swept(gone, at) => if s in gone then [Reset(at)] else []
  }

  /** What the log says about one subject. */
  function TraceOf(log: seq<Entry>, s: Subject): seq<Mark> {
    if log == [] then []
    else TraceOf(log[..|log| - 1], s) + MarkOf(log[|log| - 1], s)
  }

  /** The states one decision list gives the subject, as far as somebody voted in them. */
  function StatesOf(ds: seq<Decision>, s: Subject): seq<State> {
    if ds == [] then []
    else
      var d := ds[|ds| - 1];
      StatesOf(ds[..|ds| - 1], s) + if d.About() == s && d.voters != 0 then [d.state] else []
  }

  /** The row after being given these states one by one, and what happened on the way. */
  function Fed(cfg: Config, s: Subject, r: Row, states: seq<State>, alive: seq<Name>, now: Time): (Row, seq<Mark>) {
    if states == [] then (r, [])
    else
      var (r1, t1) := Fed(cfg, s, r, states[..|states| - 1], alive, now);
      var (r2, mark) := StepRow(cfg, s, r1, states[|states| - 1], alive, now);
      (r2, t1 + [mark])
  }

  /** The row after one decision list. */
  function Feed(cfg: Config, s: Subject, r: Row, ds: seq<Decision>, alive: seq<Name>, now: Time): (Row, seq<Mark>) {
    Fed(cfg, s, r, StatesOf(ds, s), alive, now)
  }

  lemma FedOne(cfg: Config, s: Subject, r: Row, cur: State, alive: seq<Name>, now: Time)
    ensures
      var (r', m) := StepRow(cfg, s, r, cur, alive, now);
      Fed(cfg, s, r, [cur], alive, now) == (r', [m])
  {
    assert [cur][..0] == [];
    var m := StepRow(cfg, s, r, cur, alive, now).1;
    assert [] + [m] == [m];
  }

  predicate Names(ds: seq<Decision>, s: Subject) {
    exists i :: 0 <= i < |ds| && ds[i].About() == s
  }

  /** The row after the mention and the eviction that precede the decisions. */
  function SweptRow(s: Subject, r: Row, c: Call): (Row, seq<Mark>) {
    var seen := if Names(c.decisions, s) || (r.state.Some? && r.lastSeen.None?) then Some(c.now) else r.lastSeen;
    if seen.Some? && c.now - seen.value > FORGET_AFTER then (EMPTY_ROW, [Reset(c.now)])
    else (r.(lastSeen := seen), [])
  }

  datatype LifeState = LifeState(start: Time, row: Row, trace: seq<Mark>)

  function Lived(cfg: Config, s: Subject, l: LifeState, c: Call): LifeState {
    var start := if l.start == ZERO_TIME then c.now else l.start;
    if c.now - start < cfg.warmup then l.(start := start)
    else
      var (r1, t1) := SweptRow(s, l.row, c);
      var (r2, t2) := Feed(cfg, s, r1, c.decisions, c.alive, c.now);
      LifeState(start, r2, l.trace + t1 + t2)
  }

  function Life(cfg: Config, s: Subject, calls: seq<Call>): LifeState {
    if calls == [] then LifeState(ZERO_TIME, EMPTY_ROW, [])
    else Lived(cfg, s, Life(cfg, s, calls[..|calls| - 1]), calls[|calls| - 1])
  }

  lemma {:induction false} TraceJoins(log: seq<Entry>, more: seq<Entry>, s: Subject)
    ensures TraceOf(log + more, s) == TraceOf(log, s) + TraceOf(more, s)
  {
    if more == [] {
      assert log + more == log;
    } else {
      var rest, last := more[..|more| - 1], more[|more| - 1];
      assert (log + more)[..|log + more| - 1] == log + rest;
      TraceJoins(log, rest, s);
    }
  }

  lemma TraceOne(e: Entry, s: Subject)
    ensures TraceOf([e], s) == MarkOf(e, s)
  {
    assert [e][..0] == [];
  }

  lemma JudgeIsStep(cfg: Config, b: Book, d: Decision, alive: seq<Name>, now: Time, s: Subject)
    ensures
      var (b', log) := Judge(cfg, b, d, alive, now);
      if d.About() != s || d.voters == 0 then RowOf(b', s) == RowOf(b, s) && TraceOf(log, s) == []
      else
        var (r, mark) := StepRow(cfg, s, RowOf(b, s), d.state, alive, now);
        RowOf(b', s) == r && TraceOf(log, s) == [mark]
  {
    if d.voters != 0 {
      RowsAreApart(b, d.About(), StepRow(cfg, d.About(), RowOf(b, d.About()), d.state, alive, now).0, s);
      TraceOne(Judged(d.About(), StepRow(cfg, d.About(), RowOf(b, d.About()), d.state, alive, now).1), s);
    }
  }

  lemma {:induction false} JudgeAllIsFeed(cfg: Config, b: Book, ds: seq<Decision>, alive: seq<Name>, now: Time,
                                          s: Subject)
    ensures RowOf(JudgeAll(cfg, b, ds, alive, now).0, s) == Feed(cfg, s, RowOf(b, s), ds, alive, now).0
    ensures TraceOf(JudgeAll(cfg, b, ds, alive, now).1, s) == Feed(cfg, s, RowOf(b, s), ds, alive, now).1
  {
    if ds != [] {
      var rest, d := ds[..|ds| - 1], ds[|ds| - 1];
      JudgeAllIsFeed(cfg, b, rest, alive, now, s);
      var (b1, log1) := JudgeAll(cfg, b, rest, alive, now);
      JudgeIsStep(cfg, b1, d, alive, now, s);
      TraceJoins(log1, Judge(cfg, b1, d, alive, now).1, s);
      var states := StatesOf(rest, s);
      assert states + [] == states;
      assert (states + [d.state])[..|states|] == states;
    }
  }

  lemma MentionedRow(b: Book, c: Call, s: Subject)
    ensures
      var seen := if Names(c.decisions, s) || (s in b.state && s !in b.lastSeen) then Some(c.now)
          else Get(b.lastSeen, s);
      RowOf(Mentioned(b, c.decisions, c.now), s) == RowOf(b, s).(lastSeen := seen)
  {
    NamedIsSet(c.decisions);
    assert Names(c.decisions, s) <==> NamedBefore(c.decisions, |c.decisions|, s);
  }

  lemma SweepIsSweptRow(b: Book, c: Call, s: Subject)
    ensures
      var m := Mentioned(b, c.decisions, c.now);
      var gone := Stale(m, c.now);
      && RowOf(Without(m, gone), s) == SweptRow(s, RowOf(b, s), c).0
      && MarkOf(Swept(gone, c.now), s) == SweptRow(s, RowOf(b, s), c).1
  {
    MentionedRow(b, c, s);
    var m := Mentioned(b, c.decisions, c.now);
    assert s in Stale(m, c.now) <==> RowOf(m, s).lastSeen.Some? && c.now - RowOf(m, s).lastSeen.value > FORGET_AFTER;
  }

  lemma ObservedIsLived(cfg: Config, m: Memory, c: Call, s: Subject)
    ensures
      var (m', more) := Observed(cfg, m, c);
      LifeState(m'.start, RowOf(m'.book, s), TraceOf(more, s))
          == Lived(cfg, s, LifeState(m.start, RowOf(m.book, s), []), c)
  {
    var start := if m.start == ZERO_TIME then c.now else m.start;
    if c.now - start >= cfg.warmup {
      var b := Mentioned(m.book, c.decisions, c.now);
      var gone := Stale(b, c.now);
      SweepIsSweptRow(m.book, c, s);
      JudgeAllIsFeed(cfg, Without(b, gone), c.decisions, c.alive, c.now, s);
      TraceOne(Swept(gone, c.now), s);
      TraceJoins([Swept(gone, c.now)], JudgeAll(cfg, Without(b, gone), c.decisions, c.alive, c.now).1, s);
    }
  }

  lemma LivedAppends(cfg: Config, s: Subject, l: LifeState, c: Call)
    ensures
      var alone := Lived(cfg, s, l.(trace := []), c);
      Lived(cfg, s, l, c) == alone.(trace := l.trace + alone.trace)
  {
    var (r1, t1) := SweptRow(s, l.row, c);
    var t2 := Feed(cfg, s, r1, c.decisions, c.alive, c.now).1;
    assert l.trace + t1 + t2 == l.trace + ([] + t1 + t2);
    assert l.trace + [] == l.trace;
  }

  /** A run of the tracker is its subjects' lives: every row and everything logged about it. */
  lemma {:induction false} RunIsLives(cfg: Config, calls: seq<Call>, s: Subject)
    ensures
      var (m, log) := Run(cfg, calls);
      LifeState(m.start, RowOf(m.book, s), TraceOf(log, s)) == Life(cfg, s, calls)
  {
    if calls != [] {
      var rest, c := calls[..|calls| - 1], calls[|calls| - 1];
      RunIsLives(cfg, rest, s);
      var (m, log) := Run(cfg, rest);
      ObservedIsLived(cfg, m, c, s);
      LivedAppends(cfg, s, Life(cfg, s, rest), c);
      TraceJoins(log, Observed(cfg, m, c).1, s);
    }
  }

  predicate Ordered(calls: seq<Call>) {
    forall i, j :: 0 <= i <= j < |calls| ==> calls[i].now <= calls[j].now
  }
}
