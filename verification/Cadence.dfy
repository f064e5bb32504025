/**
 internal/lantern/lantern.go, pacing and memory together: between two runs of a paced check its last word
 rides along, in the store through every event and pruning, and on the ballot.
 */
module Cadence {
  import opened Base
  import opened Quorum
  import M = Memory
  import P = Pacing

  /** A flash, with what the lantern says besides its checks, or anything else that touches its memory. */
  datatype Beat =
    | Flash(results: seq<P.Result>, others: seq<Observation>, at: Time)
    | Elsewhere(event: M.Event)

  datatype Agent = Agent(pace: P.Pace, memory: M.Memory)

  datatype Setup = Setup(id: Name, interval: int, maxAge: int, pulses: map<Name, int>, start: Time,
                         checks: seq<P.Check>)
  {
    function Pacing(): P.Config {
      P.Config(id, interval, maxAge)
    }

    function Remembering(): M.Config {
      M.Config(id, maxAge, pulses, start)
    }
  }

  function Beaten(u: Setup, a: Agent, b: Beat): Agent
    requires b.Flash? ==> |b.results| == |u.checks|
  {
    match b
    case Flash(results, others, at) =>
      var (pace, words) := P.ProbedAll(u.Pacing(), a.pace, u.checks, results, at);
      Agent(pace, M.Flashed(u.Remembering(), a.memory, words + others, at))
    case Elsewhere(e) => a.(memory := M.After(u.Remembering(), a.memory, e))
  }

  predicate Answered(u: Setup, beats: seq<Beat>) {
    forall b :: b in beats && b.Flash? ==> |b.results| == |u.checks|
  }

  function Run(u: Setup, a: Agent, beats: seq<Beat>): Agent
    requires Answered(u, beats)
  {
    if beats == [] then a else Beaten(u, Run(u, a, beats[..|beats| - 1]), beats[|beats| - 1])
  }

  /** Nothing forgets the subject of `c`, and nothing but its check speaks for it here. */
  predicate Spares(u: Setup, c: P.Check, b: Beat) {
    match b
    case Flash(_, others, _) => forall o :: o in others ==> o.About() != c.About()
    case Elsewhere(e) =>
      !e.Flash? && (e.Part? ==> e.name != u.id && e.name != c.target) && (e.Retire? ==> e.subject != c.About())
  }

  /** A paced check; whoever else is configured for its subject is the same watch given again. */
  predicate Watched(u: Setup, c: P.Check) {
    && c in u.checks && P.Paced(u.Pacing(), c) && P.Nominal(u.Pacing(), c) >= SECOND && u.interval > 0
    && c.name != "pulse"
    && forall d :: d in u.checks && d.About() == c.About() ==> d.every == c.every
  }

  function WordKey(u: Setup, c: P.Check): Key {
    Key(u.id, c.name, c.target)
  }

  /** `o` is what the check said at `t`. */
  predicate Said(u: Setup, c: P.Check, o: Observation, t: Time, outcome: P.Outcome) {
    && KeyOf(o) == WordKey(u, c) && o.seen == t && o.ttl == P.TtlOf(u.Pacing(), c)
    && P.StateOf(outcome) == Some(o.state)
  }

  /** If the last run said anything, the store holds just that. */
  predicate Rides(u: Setup, c: P.Check, p: P.Pace, store: Store) {
    var s, k := c.About(), WordKey(u, c);
    s in p.lastRun ==>
      && s in p.lastVerdict
      && (P.StateOf(p.lastVerdict[s]).Some? ==> k in store && Said(u, c, store[k], p.lastRun[s], p.lastVerdict[s]))
  }

  lemma {:induction false} WrittenJoins(store: Store, xs: seq<Observation>, ys: seq<Observation>)
    ensures M.Written(store, xs + ys) == M.Written(M.Written(store, xs), ys)
  {
    if ys == [] {
      assert xs + ys == xs;
    } else {
      assert (xs + ys)[..|xs + ys| - 1] == xs + ys[..|ys| - 1];
      WrittenJoins(store, xs, ys[..|ys| - 1]);
    }
  }

  lemma OneProbeRides(u: Setup, c: P.Check, p: P.Pace, store: Store, d: P.Check, res: P.Result, now: Time)
    requires P.Paced(u.Pacing(), c) && Rides(u, c, p, store) && (d.About() == c.About() ==> d.every == c.every)
    ensures
      var (p', word) := P.Probed(u.Pacing(), p, d, res, now);
      Rides(u, c, p', M.Written(store, word))
  {
    var word := P.Probed(u.Pacing(), p, d, res, now).1;
    if word != [] {
      assert word[..0] == [] && M.Written(store, word) == store[KeyOf(word[0]) := word[0]];
      assert KeyOf(word[0]) == WordKey(u, d);
      assert WordKey(u, d) == WordKey(u, c) ==> d.About() == c.About();
    }
  }

  lemma {:induction false} ProbesRide(u: Setup, c: P.Check, p: P.Pace, store: Store, checks: seq<P.Check>,
                                      results: seq<P.Result>, now: Time)
    requires P.Paced(u.Pacing(), c) && Rides(u, c, p, store) && |results| == |checks|
    requires forall d :: d in checks && d.About() == c.About() ==> d.every == c.every
    ensures
      var (p', words) := P.ProbedAll(u.Pacing(), p, checks, results, now);
      Rides(u, c, p', M.Written(store, words))
  {
    if checks != [] {
      var n := |checks| - 1;
      assert checks == checks[..n] + [checks[n]];
      assert checks[n] in checks;
      ProbesRide(u, c, p, store, checks[..n], results[..n], now);
      var (p1, w1) := P.ProbedAll(u.Pacing(), p, checks[..n], results[..n], now);
      OneProbeRides(u, c, p1, M.Written(store, w1), checks[n], results[n], now);
      WrittenJoins(store, w1, P.Probed(u.Pacing(), p1, checks[n], results[n], now).1);
    }
  }

  lemma OthersLeaveIt(u: Setup, c: P.Check, p: P.Pace, store: Store, others: seq<Observation>)
    requires Rides(u, c, p, store) && forall o :: o in others ==> o.About() != c.About()
    ensures Rides(u, c, p, M.Written(store, others))
  {
    forall o | o in others ensures KeyOf(o) != WordKey(u, c) {
      assert KeyOf(o) == WordKey(u, c) ==> o.About() == c.About();
    }
    M.WrittenElsewhere(store, others, WordKey(u, c));
  }

  lemma PruningLeavesIt(u: Setup, c: P.Check, p: P.Pace, m: M.Memory, now: Time)
    requires Watched(u, c) && Rides(u, c, p, m.store) && P.OnPace(u.Pacing(), p, c, now)
    ensures Rides(u, c, p, M.Pruned(u.Remembering(), m, now).store)
  {
    var s, k := c.About(), WordKey(u, c);
    if P.StateOf(p.lastVerdict[s]).Some? {
      var o := m.store[k];
      P.PacedWordIsLive(u.Pacing(), c, o, now);
      assert o.ttl > 0;
    }
  }

  lemma FlashRides(u: Setup, c: P.Check, a: Agent, b: Beat)
    requires b.Flash? && |b.results| == |u.checks| && Watched(u, c) && Spares(u, c, b)
    requires Rides(u, c, a.pace, a.memory.store)
    ensures Rides(u, c, Beaten(u, a, b).pace, Beaten(u, a, b).memory.store)
    ensures P.OnPace(u.Pacing(), Beaten(u, a, b).pace, c, b.at)
  {
    var (p, words) := P.ProbedAll(u.Pacing(), a.pace, u.checks, b.results, b.at);
    ProbesRide(u, c, a.pace, a.memory.store, u.checks, b.results, b.at);
    OthersLeaveIt(u, c, p, M.Written(a.memory.store, words), b.others);
    WrittenJoins(a.memory.store, words, b.others);
    P.FlashKeepsPace(u.Pacing(), a.pace, u.checks, b.results, b.at, c);
    PruningLeavesIt(u, c, p, a.memory.(store := M.Written(a.memory.store, words + b.others)), b.at);
  }

  lemma EventRides(u: Setup, c: P.Check, p: P.Pace, m: M.Memory, e: M.Event)
    requires Watched(u, c) && Spares(u, c, Elsewhere(e)) && Rides(u, c, p, m.store)
    ensures Rides(u, c, p, M.After(u.Remembering(), m, e).store)
  {
  }

  lemma {:induction false} WordsRide(u: Setup, c: P.Check, a: Agent, beats: seq<Beat>)
    requires Watched(u, c) && Answered(u, beats) && forall b :: b in beats ==> Spares(u, c, b)
    requires Rides(u, c, a.pace, a.memory.store)
    ensures Rides(u, c, Run(u, a, beats).pace, Run(u, a, beats).memory.store)
  {
    if beats != [] {
      var rest, b := beats[..|beats| - 1], beats[|beats| - 1];
      assert beats == rest + [b] && b in beats && Spares(u, c, b);
      WordsRide(u, c, a, rest);
      if b.Flash? {
        FlashRides(u, c, Run(u, a, rest), b);
      } else {
        EventRides(u, c, Run(u, a, rest).pace, Run(u, a, rest).memory, b.event);
      }
    }
  }

  /**
   A paced word stays live until its next due run. After any flashes and any other events, farewells of the
   target and retirements of the subject aside, what the check last said is still this lantern's word in the
   store, and it is on the subject's ballot at every instant up to four cadences after that run; in
   particular at every instant at which the check is not due again.
   */
  lemma PacedWordStaysLive(u: Setup, c: P.Check, a: Agent, beats: seq<Beat>, now: Time)
    requires Watched(u, c) && Answered(u, beats) && forall b :: b in beats ==> Spares(u, c, b)
    requires Rides(u, c, a.pace, a.memory.store)
    requires
      var p, s := Run(u, a, beats).pace, c.About();
      && s in p.lastRun && s in p.lastVerdict && P.StateOf(p.lastVerdict[s]).Some?
      && (now - p.lastRun[s] <= 4 * P.Nominal(u.Pacing(), c) || !P.Due(u.Pacing(), p, c, now))
    ensures
      var a', s := Run(u, a, beats), c.About();
      var ballot := BallotOf(a'.memory.store, s, u.maxAge, now);
      u.id in ballot && Said(u, c, ballot[u.id], a'.pace.lastRun[s], a'.pace.lastVerdict[s])
  {
    WordsRide(u, c, a, beats);
    var store, k := Run(u, a, beats).memory.store, WordKey(u, c);
    P.PacedWordIsLive(u.Pacing(), c, store[k], now);
    assert store[k].About() == c.About();
  }

  /** ... and after a flash there always is such a run, less than one cadence old. */
  lemma FlashLeavesAFreshRun(u: Setup, c: P.Check, a: Agent, beats: seq<Beat>)
    requires Watched(u, c) && Answered(u, beats) && beats != [] && beats[|beats| - 1].Flash?
    ensures
      var p, s := Run(u, a, beats).pace, c.About();
      s in p.lastRun && beats[|beats| - 1].at - p.lastRun[s] < P.Nominal(u.Pacing(), c)
  {
    var rest, b := beats[..|beats| - 1], beats[|beats| - 1];
    assert b in beats;
    P.FlashKeepsPace(u.Pacing(), Run(u, a, rest).pace, u.checks, b.results, b.at, c);
  }
}
