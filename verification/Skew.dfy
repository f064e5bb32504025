/**
 internal/lantern/skew.go: the drift of a peer's clock is the smallest arrival-minus-stamp of a window.
 */
module Skew {
  import opened Base
  import opened Quorum

  /** The value of one peer's clock record. */
  datatype View = View(offset: int, window: Time, sampled: Time)

  type Views = map<Name, View>

  function SkewWindow(interval: int): int {
    15 * interval
  }

  function Sampled(v: Option<View>, width: int, sample: int, now: Time): View {
    if v.None? || now - v.value.window > width then View(sample, now, now)
    else View(if sample < v.value.offset then sample else v.value.offset, v.value.window, now)
  }

  predicate Lapsed(v: View, width: int, now: Time) {
    now - v.sampled > 4 * width
  }

  predicate Current(v: View, width: int, now: Time) {
    !Lapsed(v, width, now) && now - v.sampled <= width
  }

  function DriftState(offset: int, skewMax: int): State {
    if -skewMax <= offset <= skewMax then Up else Warn
  }

  function Drift(id: Name, peer: Name, v: View, skewMax: int, now: Time): Observation {
    Observation(id, peer, "skew", DriftState(v.offset, skewMax), "", now, 0)
  }

  /** What one report leaves of the records: a peer silent for four windows is dropped. */
  function Kept(views: Views, width: int, skewMax: int, now: Time): Views {
    if skewMax <= 0 then views else map p | p in views && !Lapsed(views[p], width, now) :: views[p]
  }

  /** What one report says: a verdict on every peer heard within the window. */
  function Drifts(id: Name, views: Views, width: int, skewMax: int, now: Time): set<Observation> {
    if skewMax <= 0 then {}
    else set p | p in views && Current(views[p], width, now) :: Drift(id, p, views[p], skewMax, now)
  }

  /** One peer's record, updated in place. */
  class PeerClock {
    var offset: int
    var window: Time
    var sampled: Time

    constructor (offset: int, window: Time)
      ensures this.offset == offset && this.window == window && this.sampled == ZERO_TIME
    {
      this.offset, this.window, this.sampled := offset, window, ZERO_TIME;
    }

    ghost function Value(): View
      reads this
    {
      View(offset, window, sampled)
    }
  }

  function SpokenOf(id: Name, peer: Name, v: View, width: int, skewMax: int, now: Time): set<Observation> {
    if Current(v, width, now) then {Drift(id, peer, v, skewMax, now)} else {}
  }

  /** What a report has said once the peers in `done` have been looked at. */
  function Spoken(id: Name, views: Views, done: set<Name>, width: int, skewMax: int, now: Time): set<Observation>
    requires done <= views.Keys
  {
    set p | p in done && Current(views[p], width, now) :: Drift(id, p, views[p], skewMax, now)
  }

  lemma SpokenGrows(id: Name, views: Views, width: int, skewMax: int, now: Time, done: set<Name>, peer: Name,
                    more: set<Name>)
    requires done <= views.Keys && peer in views && more == done + {peer}
    ensures Spoken(id, views, more, width, skewMax, now)
         == Spoken(id, views, done, width, skewMax, now) + SpokenOf(id, peer, views[peer], width, skewMax, now)
  {
  }

  lemma NewPeer(id: Name, views: Views, done: set<Name>, width: int, skewMax: int, now: Time,
                obs: seq<Observation>, word: seq<Observation>, peer: Name)
    requires done <= views.Keys && peer in views && peer !in done && OnePerTarget(obs) && |word| <= 1
    requires Elements(obs) == Spoken(id, views, done, width, skewMax, now)
    requires Elements(word) == SpokenOf(id, peer, views[peer], width, skewMax, now)
    ensures OnePerTarget(obs + word)
  {
    forall o | o in obs ensures o.target in done {
      assert o in Elements(obs);
    }
    forall o | o in word ensures o.target == peer {
      assert o in Elements(word);
    }
  }

  lemma AllSpoken(id: Name, views: Views, done: set<Name>, width: int, skewMax: int, now: Time)
    requires done == views.Keys && skewMax > 0
    ensures Spoken(id, views, done, width, skewMax, now) == Drifts(id, views, width, skewMax, now)
  {
  }

  lemma ElementsOfBoth(obs: seq<Observation>, more: seq<Observation>)
    ensures Elements(obs + more) == Elements(obs) + Elements(more)
  {
  }

  class ClockTable {
    const id: Name
    const interval: int
    const skewMax: int
    var clocks: map<Name, PeerClock>

    ghost predicate Valid()
      reads this
    {
      interval > 0 && forall p, q :: p in clocks && q in clocks && p != q ==> clocks[p] != clocks[q]
    }

    ghost function Contents(): Views
      reads this, clocks.Values
    {
      map p | p in clocks :: clocks[p].Value()
    }

    constructor (id: Name, interval: int, skewMax: int)
      requires interval > 0
      ensures Valid() && Contents() == map[] && this.id == id && this.interval == interval && this.skewMax == skewMax
    {
      this.id, this.interval, this.skewMax, clocks := id, interval, skewMax, map[];
    }

    method ObserveClock(peer: Name, stamped: Time, now: Time)
      requires Valid()
      modifies this, clocks.Values
      ensures Valid() && fresh(clocks.Values - old(clocks.Values))
      ensures
        var v := if peer in old(clocks) then Some(old(Contents()[peer])) else None;
        Contents() == old(Contents())[peer := Sampled(v, SkewWindow(interval), now - stamped, now)]
    {
      var sample := now - stamped;
      if peer !in clocks {
        var born := new PeerClock(sample, now);
        clocks := clocks[peer := born];
      }
      var c := clocks[peer];
      if now - c.window > SkewWindow(interval) {
        c.offset, c.window := sample, now;
      } else if sample < c.offset {
        c.offset := sample;
      }
      c.sampled := now;
    }

    method Forget(peer: Name)
      requires Valid()
      modifies this`clocks
      ensures Valid() && clocks == old(clocks) - {peer} && Contents() == old(Contents()) - {peer}
    {
      clocks := clocks - {peer};
    }

    /** One observation per recently heard peer; a peer silent for four windows is dropped. */
    method SkewObservations(now: Time) returns (obs: seq<Observation>)
      requires Valid()
      modifies this`clocks
      ensures Valid() && clocks.Values <= old(clocks.Values)
      ensures Contents() == Kept(old(Contents()), SkewWindow(interval), skewMax, now)
      ensures Elements(obs) == Drifts(id, old(Contents()), SkewWindow(interval), skewMax, now) && OnePerTarget(obs)
    {
      obs := [];
      if skewMax <= 0 {
        return;
      }
      var width := SkewWindow(interval);
      ghost var views := Contents();
      ghost var before := clocks;
      var todo := clocks.Keys;
      while todo != {}
        invariant todo <= before.Keys
        invariant clocks == map p | p in before && (p in todo || !Lapsed(views[p], width, now)) :: before[p]
        invariant Elements(obs) == Spoken(id, views, before.Keys - todo, width, skewMax, now) && OnePerTarget(obs)
        decreases todo
      {
        var peer :| peer in todo;
        var c := clocks[peer];
        assert c == before[peer] && c.Value() == views[peer];
        SpokenGrows(id, views, width, skewMax, now, before.Keys - todo, peer, before.Keys - (todo - {peer}));
        todo := todo - {peer};
        if now - c.sampled > 4 * width {
          clocks := clocks - {peer};
        } else {
          var word := Report(c, peer, width, now, views[peer]);
          ElementsOfBoth(obs, word);
          NewPeer(id, views, before.Keys - todo - {peer}, width, skewMax, now, obs, word, peer);
          obs := obs + word;
        }
      }
      AllSpoken(id, views, before.Keys, width, skewMax, now);
    }

    method Report(c: PeerClock, peer: Name, width: int, now: Time, ghost v: View) returns (word: seq<Observation>)
      requires c.Value() == v && !Lapsed(v, width, now)
      ensures Elements(word) == SpokenOf(id, peer, v, width, skewMax, now) && |word| <= 1
    {
      word := [];
      if now - c.sampled > width {
        return;
      }
      var off := c.offset;
      var size := if off < 0 then -off else off;
      var state := if size <= skewMax then Up else Warn;
      word := [Observation(id, peer, "skew", state, "", now, 0)];
    }
  }

  // ---- One peer over a run ----

  datatype Event =
    | Sample(stamped: Time, at: Time)
    | Report(at: Time)
    | Forgotten

  /** What the table holds about one peer after a run. */
  function Clock(width: int, events: seq<Event>): Option<View> {
    if events == [] then None
    else
      var v := Clock(width, events[..|events| - 1]);
      match events[|events| - 1]
      case Sample(stamped, at) => Some(Sampled(v, width, at - stamped, at))
      case Report(at) => if v.Some? && Lapsed(v.value, width, at) then None else v
      case Forgotten => None
  }

  /** The full list of samples of the window that is open: when it opened, what came, when the last came. */
  datatype Window = Shut | Open(since: Time, samples: seq<int>, last: Time)

  function WindowOf(width: int, events: seq<Event>): Window {
    if events == [] then Shut
    else
      var w := WindowOf(width, events[..|events| - 1]);
      match events[|events| - 1]
      case Sample(stamped, at) =>
        if w.Shut? || at - w.since > width then Open(at, [at - stamped], at)
            else Open(w.since, w.samples + [at - stamped], at)
      case Report(at) => if w.Open? && at - w.last > 4 * width then Shut else w
      case Forgotten => Shut
  }

  ghost predicate IsMinimum(x: int, xs: seq<int>) {
    x in xs && forall y :: y in xs ==> x <= y
  }

  /** Some flash of the window arrived promptly enough. */
  predicate Prompt(w: Window, bound: int) {
    w.Open? && exists x :: x in w.samples && x <= bound
  }

  /** The one number kept is the minimum of the whole window. */
  lemma {:induction false} EstimateIsWindowMinimum(width: int, events: seq<Event>)
    ensures
      var v, w := Clock(width, events), WindowOf(width, events);
      && (v.None? <==> w.Shut?)
      && (v.Some? ==> v.value.window == w.since && v.value.sampled == w.last && IsMinimum(v.value.offset, w.samples))
  {
    if events != [] {
      EstimateIsWindowMinimum(width, events[..|events| - 1]);
      var w := WindowOf(width, events[..|events| - 1]);
      if events[|events| - 1].Sample? && w.Open? {
        var sample := events[|events| - 1].at - events[|events| - 1].stamped;
        assert forall y :: y in w.samples + [sample] <==> y in w.samples || y == sample;
      }
    }
  }

  lemma {:induction false} WindowSamplesAreSamples(width: int, events: seq<Event>, theta: int)
    requires forall e :: e in events && e.Sample? ==> e.at - e.stamped >= theta
    ensures WindowOf(width, events).Open? ==> forall x :: x in WindowOf(width, events).samples ==> x >= theta
  {
    if events != [] {
      var rest, e := events[..|events| - 1], events[|events| - 1];
      assert events == rest + [e] && e in events;
      WindowSamplesAreSamples(width, rest, theta);
    }
  }

  /**
   With a true offset `theta` and transit delays that are never negative, the estimate lies between
   `theta` and `theta` plus the smallest delay of the window.
   */
  lemma EstimateBracketsTruth(width: int, events: seq<Event>, theta: int, delay: int)
    requires forall e :: e in events && e.Sample? ==> e.at - e.stamped >= theta
    requires Clock(width, events).Some?
    ensures theta <= Clock(width, events).value.offset
    ensures Prompt(WindowOf(width, events), theta + delay) ==>
      Clock(width, events).value.offset <= theta + delay
  {
    EstimateIsWindowMinimum(width, events);
    WindowSamplesAreSamples(width, events, theta);
  }

  /**
   A clock more than `skewMax` behind is always warned about; with one prompt flash in the window, a clock
   that far ahead is too, and a clock in step never is.
   */
  lemma DriftVerdictIsRight(width: int, events: seq<Event>, theta: int, delay: nat, skewMax: nat)
    requires forall e :: e in events && e.Sample? ==> e.at - e.stamped >= theta
    requires Clock(width, events).Some?
    ensures theta > skewMax ==> DriftState(Clock(width, events).value.offset, skewMax) == Warn
    ensures Prompt(WindowOf(width, events), theta + delay) ==>
      && (theta + delay + skewMax < 0 ==> DriftState(Clock(width, events).value.offset, skewMax) == Warn)
      && (0 <= theta + skewMax && theta + delay <= skewMax
          ==> DriftState(Clock(width, events).value.offset, skewMax) == Up)
  {
    EstimateBracketsTruth(width, events, theta, delay);
  }

  /** The lantern has something to say about the peer: a word on the one thing measured, its clock. */
  ghost predicate SaysOf(words: set<Observation>, id: Name, peer: Name, state: State, now: Time) {
    exists o :: o in words && o == Observation(id, peer, "skew", state, "", now, 0)
  }

  /** The word on a peer's clock, and nothing else, is on a report that speaks of it. */
  lemma SaysExactly(id: Name, peer: Name, views: Views, width: int, skewMax: int, now: Time, state: State)
    requires peer in views && skewMax > 0
    ensures SaysOf(Drifts(id, views, width, skewMax, now), id, peer, state, now)
       <==> Current(views[peer], width, now) && state == DriftState(views[peer].offset, skewMax)
  {
    if Current(views[peer], width, now) {
      assert Drift(id, peer, views[peer], skewMax, now) in Drifts(id, views, width, skewMax, now);
    }
  }

  /**
   What is said of clocks, over any run of flashes, reports and farewells of a peer. One is spoken of if and only if
   it was heard within fifteen intervals, measured on if and only if within sixty, and never called down. And the
   verdict is right: one running more than the bound behind is warned about, so is one that far ahead after a
   prompt flash, and one in step after a prompt flash is up.
   */
  lemma WordsTellTheDrift(interval: nat, events: seq<Event>, id: Name, peer: Name, views: Views, theta: int,
                          delay: nat, skewMax: int, now: Time)
    requires forall e :: e in events && e.Sample? ==> e.at - e.stamped >= theta
    requires peer in views && Clock(15 * interval, events) == Some(views[peer]) && skewMax > 0
    ensures
      var words, w := Drifts(id, views, SkewWindow(interval), skewMax, now), WindowOf(15 * interval, events);
      && w.Open? && (peer in Kept(views, SkewWindow(interval), skewMax, now) <==> w.last + 60 * interval >= now)
      && (w.last + 15 * interval >= now <==> SaysOf(words, id, peer, Up, now) || SaysOf(words, id, peer, Warn, now))
      && !SaysOf(words, id, peer, Down, now)
      && (SaysOf(words, id, peer, Up, now) ==> !SaysOf(words, id, peer, Warn, now) && theta <= skewMax)
      && (Prompt(w, theta + delay) ==>
            && (theta + delay + skewMax < 0 ==> !SaysOf(words, id, peer, Up, now))
            && (0 <= theta + skewMax && theta + delay <= skewMax ==> !SaysOf(words, id, peer, Warn, now)))
  {
    var words, v := Drifts(id, views, SkewWindow(interval), skewMax, now), views[peer];
    EstimateIsWindowMinimum(15 * interval, events);
    DriftVerdictIsRight(15 * interval, events, theta, delay, skewMax);
    forall state ensures SaysOf(words, id, peer, state, now)
        <==> Current(v, 15 * interval, now) && state == DriftState(v.offset, skewMax) {
      SaysExactly(id, peer, views, 15 * interval, skewMax, now, state);
    }
  }
}
