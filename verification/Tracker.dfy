/**
 internal/notify/notify.go, `Tracker`: quorum decisions in, pages out.

 The class holds the source's six maps. Everything it knows about one subject is a `Row`, and
 `StepRow` is what one decision does to that row: the state machine the runs are reasoned about with.
 Every decision is also logged with what was committed and which page it announced. The announcement
 does not depend on which lantern computes it; only the elected lantern sends it.
 */
module Tracker {
  import opened Base
  import opened Quorum
  import opened Election

  const FLAP_WINDOW: int := 10 * MINUTE
  const FLAP_COUNT: nat := 4
  const SETTLE_AFTER: int := 5 * MINUTE
  const FORGET_AFTER: int := 72 * HOUR

  /** `Settled` carries the state its sentence names. */
  datatype Kind = WentDown | Warns | Recovered | Cleared | Flapping | Settled(at: State)

  datatype Event = Event(kind: Kind, subject: Subject)

  /** One announcement and the lantern elected to send it. */
  datatype Page = Page(kind: Kind, winner: Name, takeover: bool)

  /** What happened to one subject: a decision with voters, or its eviction. */
  datatype Mark =
    | Step(cur: State, alive: seq<Name>, at: Time, committed: bool, page: Option<Page>)
    | Reset(at: Time)

  datatype Entry =
    | Judged(subject: Subject, mark: Mark)
    | Swept(subjects: set<Subject>, at: Time)

  datatype Config = Config(warmup: int, holdDown: int, score: Score)

  // ---- One subject ----

  datatype Row = Row(
    state: Option<State>, elected: Option<Name>, transitions: Option<seq<Time>>,
    flapping: bool, lastSeen: Option<Time>, downSince: Option<Time>)
  {
    function Committed(): State {
      if state.Some? then state.value else Up
    }

    function Sender(): Name {
      if elected.Some? then elected.value else ""
    }

    function Changes(): seq<Time> {
      if transitions.Some? then transitions.value else []
    }

    function Since(): Time {
      if downSince.Some? then downSince.value else ZERO_TIME
    }
  }

  const EMPTY_ROW: Row := Row(None, None, None, false, None, None)

  function KindFor(prev: State, cur: State): Kind {
    match cur
    case Down => WentDown
    case Warn => Warns
    case Up => if prev == Down then Recovered else Cleared
  }

  function Trim(changes: seq<Time>, now: Time): seq<Time> {
    if changes != [] && now - changes[0] > FLAP_WINDOW then Trim(changes[1..], now) else changes
  }

  /** The committed state already is `cur`: close a flap that has settled, replace a dead sender, or keep quiet. */
  function Unchanged(cfg: Config, s: Subject, r: Row, cur: State, alive: seq<Name>, now: Time): (Row, Mark) {
    var winner := Elected(cfg.score, s, alive);
    var changes := r.Changes();
    if r.flapping then
      if changes != [] && now - changes[|changes| - 1] >= SETTLE_AFTER then
        (r.(flapping := false, transitions := None),
            Step(cur, alive, now, false, Some(Page(Settled(cur), winner, false))))
      else
        (r, Step(cur, alive, now, false, None))
    else if cur != Up && r.Sender() !in alive then
      (r.(elected := Some(winner)), Step(cur, alive, now, false, Some(Page(KindFor(cur, cur), winner, true))))
    else
      (r, Step(cur, alive, now, false, None))
  }

  /** The state changes to `cur`. */
  function Changed(cfg: Config, s: Subject, r: Row, cur: State, alive: seq<Name>, now: Time): (Row, Mark) {
    var winner := Elected(cfg.score, s, alive);
    var changes := Trim(r.Changes() + [now], now);
    var moved := r.(state := Some(cur), transitions := Some(changes));
    if r.flapping then
      (moved, Step(cur, alive, now, true, None))
    else if |changes| >= FLAP_COUNT then
      (moved.(flapping := true, elected := Some(winner)),
          Step(cur, alive, now, true, Some(Page(Flapping, winner, false))))
    else
      (moved.(elected := if cur == Up then None else Some(winner)),
       Step(cur, alive, now, true, Some(Page(KindFor(r.Committed(), cur), winner, false))))
  }

  function Speak(cfg: Config, s: Subject, r: Row, cur: State, alive: seq<Name>, now: Time): (Row, Mark) {
    if cur == r.Committed() then Unchanged(cfg, s, r, cur, alive, now) else Changed(cfg, s, r, cur, alive, now)
  }

  /** When the unconfirmed down began, counting this decision. */
  function DownStart(r: Row, now: Time): Time {
    if r.Since() == ZERO_TIME then now else r.Since()
  }

  /** The alert delay: the row with its hold-down clock updated, and whether the decision is held back. */
  function Held(cfg: Config, r: Row, cur: State, now: Time): (Row, bool) {
    if cfg.holdDown <= 0 then (r, false)
    else if cur != Down then (r.(downSince := None), false)
    else if r.Committed() == Down then (r, false)
    else if now - DownStart(r, now) < cfg.holdDown then (r.(downSince := Some(DownStart(r, now))), true)
    else (r.(downSince := None), false)
  }

  function StepRow(cfg: Config, s: Subject, r: Row, cur: State, alive: seq<Name>, now: Time): (Row, Mark) {
    var (h, held) := Held(cfg, r, cur, now);
    if held then (h, Step(cur, alive, now, false, None)) else Speak(cfg, s, h, cur, alive, now)
  }

  // ---- The six maps ----

  datatype Book = Book(
    state: map<Subject, State>, elected: map<Subject, Name>, transitions: map<Subject, seq<Time>>,
    flapping: set<Subject>, lastSeen: map<Subject, Time>, downSince: map<Subject, Time>)

  const EMPTY_BOOK: Book := Book(map[], map[], map[], {}, map[], map[])

  function Get<V>(m: map<Subject, V>, s: Subject): Option<V> {
    if s in m then Some(m[s]) else None
  }

  function Put<V>(m: map<Subject, V>, s: Subject, v: Option<V>): map<Subject, V> {
    if v.Some? then m[s := v.value] else m - {s}
  }

  function RowOf(b: Book, s: Subject): Row {
    Row(Get(b.state, s), Get(b.elected, s), Get(b.transitions, s), s in b.flapping,
        Get(b.lastSeen, s), Get(b.downSince, s))
  }

  function WithRow(b: Book, s: Subject, r: Row): Book {
    Book(Put(b.state, s, r.state), Put(b.elected, s, r.elected), Put(b.transitions, s, r.transitions),
         if r.flapping then b.flapping + {s} else b.flapping - {s},
         Put(b.lastSeen, s, r.lastSeen), Put(b.downSince, s, r.downSince))
  }

  /** Writing one row is read back, and touches no other. */
  lemma RowsAreApart(b: Book, s: Subject, r: Row, x: Subject)
    ensures RowOf(WithRow(b, s, r), x) == if x == s then r else RowOf(b, x)
  {
  }

  function Judge(cfg: Config, b: Book, d: Decision, alive: seq<Name>, now: Time): (Book, seq<Entry>) {
    if d.voters == 0 then (b, [])
    else
      var (r, mark) := StepRow(cfg, d.About(), RowOf(b, d.About()), d.state, alive, now);
      (WithRow(b, d.About(), r), [Judged(d.About(), mark)])
  }

  function JudgeAll(cfg: Config, b: Book, ds: seq<Decision>, alive: seq<Name>, now: Time): (Book, seq<Entry>) {
    if ds == [] then (b, [])
    else
      var (b1, log1) := JudgeAll(cfg, b, ds[..|ds| - 1], alive, now);
      var (b2, log2) := Judge(cfg, b1, ds[|ds| - 1], alive, now);
      (b2, log1 + log2)
  }

  predicate NamedBefore(ds: seq<Decision>, i: nat, s: Subject)
    requires i <= |ds|
  {
    exists j :: 0 <= j < i && ds[j].About() == s
  }

  function Mentioned(b: Book, ds: seq<Decision>, now: Time): Book {
    var named := set d | d in ds :: d.About();
    b.(lastSeen := map s | s in named + b.state.Keys + b.lastSeen.Keys ::
         if s in named || s !in b.lastSeen then now else b.lastSeen[s])
  }

  lemma NamedIsSet(ds: seq<Decision>)
    ensures forall s :: NamedBefore(ds, |ds|, s) <==> s in set d | d in ds :: d.About()
  {
    forall s ensures NamedBefore(ds, |ds|, s) <==> s in set d | d in ds :: d.About() {
      if s in set d | d in ds :: d.About() {
        var d :| d in ds && d.About() == s;
        var j :| 0 <= j < |ds| && ds[j] == d;
      }
    }
  }

  lemma MentionedIs(b: Book, ds: seq<Decision>, now: Time, m: map<Subject, Time>)
    requires forall s :: s in m <==> s in b.lastSeen || s in b.state || NamedBefore(ds, |ds|, s)
    requires forall s :: s in m ==> m[s] == if NamedBefore(ds, |ds|, s) || s !in b.lastSeen then now else b.lastSeen[s]
    ensures b.(lastSeen := m) == Mentioned(b, ds, now)
  {
    NamedIsSet(ds);
    assert m == Mentioned(b, ds, now).lastSeen;
  }

  function Stale(b: Book, now: Time): set<Subject> {
    set s | s in b.lastSeen && now - b.lastSeen[s] > FORGET_AFTER
  }

  function Without(b: Book, gone: set<Subject>): Book {
    Book(b.state - gone, b.elected - gone, b.transitions - gone, b.flapping - gone, b.lastSeen - gone,
        b.downSince - gone)
  }

  datatype Call = Call(decisions: seq<Decision>, alive: seq<Name>, now: Time)

  datatype Memory = Memory(start: Time, book: Book)

  function Observed(cfg: Config, m: Memory, c: Call): (Memory, seq<Entry>) {
    var start := if m.start == ZERO_TIME then c.now else m.start;
    if c.now - start < cfg.warmup then (Memory(start, m.book), [])
    else
      var b := Mentioned(m.book, c.decisions, c.now);
      var gone := Stale(b, c.now);
      var (judged, log) := JudgeAll(cfg, Without(b, gone), c.decisions, c.alive, c.now);
      (Memory(start, judged), [Swept(gone, c.now)] + log)
  }

  function Sends(self: Name, e: Entry): seq<Event> {
    if e.Judged? && e.mark.Step? && e.mark.page.Some? && e.mark.page.value.winner == self
    then [Event(e.mark.page.value.kind, e.subject)]
    else []
  }

  /** The pages one lantern sends out of what was announced. */
  function SentBy(self: Name, log: seq<Entry>): seq<Event> {
    if log == [] then []
    else
      SentBy(self, log[..|log| - 1]) + Sends(self, log[|log| - 1])
  }

  lemma {:induction false} SentByJoins(self: Name, log: seq<Entry>, more: seq<Entry>)
    ensures SentBy(self, log + more) == SentBy(self, log) + SentBy(self, more)
  {
    if more == [] {
      assert log + more == log;
    } else {
      var rest, last := more[..|more| - 1], more[|more| - 1];
      assert (log + more)[..|log + more| - 1] == log + rest;
      SentByJoins(self, log, rest);
    }
  }

  lemma SentByOne(self: Name, e: Entry)
    ensures SentBy(self, [e]) == Sends(self, e)
  {
    assert [e][..0] == [];
  }

  // ---- The class ----

  lemma SamePut<V>(m: map<Subject, V>, s: Subject)
    ensures Put(m, s, Get(m, s)) == m
  {
  }

  lemma PutTwice<V>(m: map<Subject, V>, s: Subject, v: Option<V>, w: Option<V>)
    ensures Put(Put(m, s, v), s, w) == Put(m, s, w)
  {
  }

  lemma WrittenTwice(b: Book, s: Subject, r: Row, r': Row)
    ensures WithRow(WithRow(b, s, r), s, r') == WithRow(b, s, r')
  {
    PutTwice(b.state, s, r.state, r'.state);
    PutTwice(b.elected, s, r.elected, r'.elected);
    PutTwice(b.transitions, s, r.transitions, r'.transitions);
    PutTwice(b.lastSeen, s, r.lastSeen, r'.lastSeen);
    PutTwice(b.downSince, s, r.downSince, r'.downSince);
  }

  lemma RowHeld(b: Book, s: Subject, v: Option<Time>)
    ensures WithRow(b, s, RowOf(b, s).(downSince := v)) == b.(downSince := Put(b.downSince, s, v))
  {
    SamePut(b.state, s);
    SamePut(b.elected, s);
    SamePut(b.transitions, s);
    SamePut(b.lastSeen, s);
  }

  lemma HeldBook(b: Book, s: Subject, h: Row, c: Book)
    requires h == RowOf(b, s).(downSince := h.downSince) && c == b.(downSince := Put(b.downSince, s, h.downSince))
    ensures c == WithRow(b, s, h) && RowOf(c, s) == h
  {
    RowHeld(b, s, h.downSince);
    RowsAreApart(b, s, h, s);
  }

  /** A decision is first held against the delay, then spoken: what becomes of the maps ... */
  lemma JudgedBook(cfg: Config, b: Book, d: Decision, alive: seq<Name>, now: Time, c: Book)
    requires d.voters != 0
    requires c == b.(downSince := Put(b.downSince, d.About(), Held(cfg, RowOf(b, d.About()), d.state, now).0.downSince))
    ensures
      var s := d.About();
      Judge(cfg, b, d, alive, now).0
        == if Held(cfg, RowOf(b, s), d.state, now).1 then c
            else WithRow(c, s, Speak(cfg, s, RowOf(c, s), d.state, alive, now).0)
  {
    var s := d.About();
    var h := Held(cfg, RowOf(b, s), d.state, now).0;
    var last := StepRow(cfg, s, RowOf(b, s), d.state, alive, now).0;
    HeldBook(b, s, h, c);
    WrittenTwice(b, s, h, last);
  }

  /** ... and what is sent. */
  lemma JudgedSends(cfg: Config, self: Name, b: Book, d: Decision, alive: seq<Name>, now: Time, c: Book)
    requires d.voters != 0
    requires c == b.(downSince := Put(b.downSince, d.About(), Held(cfg, RowOf(b, d.About()), d.state, now).0.downSince))
    ensures
      var s := d.About();
      SentBy(self, Judge(cfg, b, d, alive, now).1)
        == if Held(cfg, RowOf(b, s), d.state, now).1 then []
            else Sends(self, Judged(s, Speak(cfg, s, RowOf(c, s), d.state, alive, now).1))
  {
    var s := d.About();
    var h := Held(cfg, RowOf(b, s), d.state, now).0;
    HeldBook(b, s, h, c);
    SentByOne(self, Judged(s, StepRow(cfg, s, RowOf(b, s), d.state, alive, now).1));
  }

  lemma SameRow(b: Book, s: Subject)
    ensures WithRow(b, s, RowOf(b, s)) == b
  {
  }

  lemma RowSettled(b: Book, s: Subject)
    ensures WithRow(b, s, RowOf(b, s).(flapping := false, transitions := None))
         == b.(flapping := b.flapping - {s}, transitions := b.transitions - {s})
  {
    SamePut(b.state, s);
    SamePut(b.elected, s);
    SamePut(b.lastSeen, s);
    SamePut(b.downSince, s);
  }

  /** `Unchanged` on a flapping subject, in terms of the maps. */
  lemma FlapClosed(cfg: Config, s: Subject, b: Book, cur: State, alive: seq<Name>, now: Time)
    requires s in b.flapping
    ensures
      var (r, mark) := Unchanged(cfg, s, RowOf(b, s), cur, alive, now);
      var changes := if s in b.transitions then b.transitions[s] else [];
      if |changes| > 0 && now - changes[|changes| - 1] >= SETTLE_AFTER then
        && WithRow(b, s, r) == b.(flapping := b.flapping - {s}, transitions := b.transitions - {s})
        && mark == Step(cur, alive, now, false, Some(Page(Settled(cur), Elected(cfg.score, s, alive), false)))
      else WithRow(b, s, r) == b && mark == Step(cur, alive, now, false, None)
  {
    RowSettled(b, s);
    SameRow(b, s);
  }

  lemma RowTakenOver(b: Book, s: Subject, winner: Name)
    ensures s !in b.flapping ==>
      WithRow(b, s, RowOf(b, s).(elected := Some(winner))) == b.(elected := b.elected[s := winner])
  {
    SameRow(b, s);
  }

  /** `Unchanged` on a steady subject, in terms of the maps. */
  lemma SenderKept(cfg: Config, s: Subject, b: Book, cur: State, alive: seq<Name>, now: Time)
    requires s !in b.flapping
    ensures
      var (r, mark) := Unchanged(cfg, s, RowOf(b, s), cur, alive, now);
      var winner := Elected(cfg.score, s, alive);
      if cur != Up && (if s in b.elected then b.elected[s] else "") !in alive then
        && WithRow(b, s, r) == b.(elected := b.elected[s := winner])
        && mark == Step(cur, alive, now, false, Some(Page(KindFor(cur, cur), winner, true)))
      else WithRow(b, s, r) == b && mark == Step(cur, alive, now, false, None)
  {
    RowTakenOver(b, s, Elected(cfg.score, s, alive));
    SameRow(b, s);
  }

  lemma RowMoved(b: Book, s: Subject, cur: State, changes: seq<Time>, flaps: bool, e: Option<Name>)
    ensures WithRow(b, s, RowOf(b, s).(state := Some(cur), transitions := Some(changes),
                                       flapping := flaps, elected := e))
         == b.(state := b.state[s := cur], transitions := b.transitions[s := changes],
               flapping := if flaps then b.flapping + {s} else b.flapping - {s}, elected := Put(b.elected, s, e))
  {
    SamePut(b.lastSeen, s);
    SamePut(b.downSince, s);
  }

  /** `Changed`, in terms of the maps. */
  lemma Moved(cfg: Config, s: Subject, b: Book, cur: State, alive: seq<Name>, now: Time)
    ensures
      var (r, mark) := Changed(cfg, s, RowOf(b, s), cur, alive, now);
      var winner := Elected(cfg.score, s, alive);
      var changes := Trim(RowOf(b, s).Changes() + [now], now);
      var flaps := |changes| >= FLAP_COUNT;
      var moved := b.(state := b.state[s := cur], transitions := b.transitions[s := changes]);
      if s in b.flapping then
        WithRow(b, s, r) == moved && mark == Step(cur, alive, now, true, None)
      else
        && WithRow(b, s, r) == moved.(flapping := if flaps then b.flapping + {s} else b.flapping,
                                      elected := if flaps || cur != Up then b.elected[s := winner] else b.elected - {s})
        && mark == Step(cur, alive, now, true,
            Some(Page(if flaps then Flapping else KindFor(RowOf(b, s).Committed(), cur), winner, false)))
  {
    var r := Changed(cfg, s, RowOf(b, s), cur, alive, now).0;
    RowMoved(b, s, cur, Trim(RowOf(b, s).Changes() + [now], now), r.flapping, r.elected);
    SamePut(b.elected, s);
    assert s !in b.flapping ==> b.flapping - {s} == b.flapping;
    assert s in b.flapping ==> b.flapping + {s} == b.flapping;
  }

  lemma WithoutOne(b: Book, gone: set<Subject>, s: Subject)
    ensures Without(Without(b, gone), {s}) == Without(b, gone + {s})
  {
  }

  class Tracker {
    const self: Name
    const cfg: Config
    var start: Time
    var state: map<Subject, State>
    var elected: map<Subject, Name>
    var transitions: map<Subject, seq<Time>>
    var flapping: set<Subject>
    var lastSeen: map<Subject, Time>
    var downSince: map<Subject, Time>

    ghost function Contents(): Book
      reads this
    {
      Book(state, elected, transitions, flapping, lastSeen, downSince)
    }

    constructor (self: Name, warmup: int, holdDown: int, score: Score)
      ensures this.self == self && this.cfg == Config(warmup, holdDown, score)
      ensures start == ZERO_TIME && Contents() == EMPTY_BOOK
    {
      this.self, this.cfg, start := self, Config(warmup, holdDown, score), ZERO_TIME;
      state, elected, transitions, flapping, lastSeen, downSince := map[], map[], map[], {}, map[], map[];
    }

    method Observe(decisions: seq<Decision>, alive: seq<Name>, now: Time) returns (sent: seq<Event>)
      modifies this
      ensures
        var (m, log) := Observed(cfg, Memory(old(start), old(Contents())), Call(decisions, alive, now));
        Memory(start, Contents()) == m && sent == SentBy(self, log)
    {
      sent := [];
      if start == ZERO_TIME {
        start := now;
      }
      if now - start < cfg.warmup {
        return;
      }
      Mention(decisions, now);
      ghost var gone := Sweep(now);
      ghost var b := Contents();
      for i := 0 to |decisions|
        invariant start == if old(start) == ZERO_TIME then now else old(start)
        invariant Contents() == JudgeAll(cfg, b, decisions[..i], alive, now).0
        invariant sent == SentBy(self, JudgeAll(cfg, b, decisions[..i], alive, now).1)
      {
        assert decisions[..i + 1][..i] == decisions[..i];
        var more := ObserveOne(decisions[i], alive, now);
        SentByJoins(self, JudgeAll(cfg, b, decisions[..i], alive, now).1,
            Judge(cfg, JudgeAll(cfg, b, decisions[..i], alive, now).0, decisions[i], alive, now).1);
        sent := sent + more;
      }
      assert decisions[..|decisions|] == decisions;
      SentByOne(self, Swept(gone, now));
      SentByJoins(self, [Swept(gone, now)], JudgeAll(cfg, b, decisions, alive, now).1);
    }

    method Mention(decisions: seq<Decision>, now: Time)
      modifies this`lastSeen
      ensures Contents() == Mentioned(old(Contents()), decisions, now)
    {
      ghost var b := Contents();
      Stamp(decisions, now);
      Adopt(now);
      MentionedIs(b, decisions, now, lastSeen);
    }

    method Stamp(decisions: seq<Decision>, now: Time)
      modifies this`lastSeen
      ensures forall s :: s in lastSeen <==> s in old(lastSeen) || NamedBefore(decisions, |decisions|, s)
      ensures forall s :: s in lastSeen ==> lastSeen[s] == if NamedBefore(decisions, |decisions|, s) then now
          else old(lastSeen)[s]
    {
      for i := 0 to |decisions|
        invariant forall s :: s in lastSeen <==> s in old(lastSeen) || NamedBefore(decisions, i, s)
        invariant forall s :: s in lastSeen ==> lastSeen[s] == if NamedBefore(decisions, i, s) then now
            else old(lastSeen)[s]
      {
        lastSeen := lastSeen[decisions[i].About() := now];
      }
    }

    method Adopt(now: Time)
      modifies this`lastSeen
      ensures lastSeen.Keys == old(lastSeen).Keys + state.Keys
      ensures forall s :: s in lastSeen ==> lastSeen[s] == if s in old(lastSeen) then old(lastSeen)[s] else now
    {
      var todo := state.Keys;
      while todo != {}
        invariant todo <= state.Keys
        invariant lastSeen.Keys == old(lastSeen).Keys + (state.Keys - todo)
        invariant forall s :: s in lastSeen ==> lastSeen[s] == if s in old(lastSeen) then old(lastSeen)[s] else now
        decreases todo
      {
        var s :| s in todo;
        if s !in lastSeen {
          lastSeen := lastSeen[s := now];
        }
        todo := todo - {s};
      }
    }

    method Sweep(now: Time) returns (ghost gone: set<Subject>)
      modifies this`state, this`elected, this`transitions, this`flapping, this`lastSeen, this`downSince
      ensures gone == Stale(old(Contents()), now) && Contents() == Without(old(Contents()), gone)
    {
      ghost var b := Contents();
      gone := {};
      var todo := lastSeen.Keys;
      while todo != {}
        invariant gone !! todo && todo <= lastSeen.Keys
        invariant gone + (todo * Stale(b, now)) == Stale(b, now)
        invariant Contents() == Without(b, gone)
        decreases todo
      {
        var s :| s in todo;
        todo := todo - {s};
        if now - lastSeen[s] > FORGET_AFTER {
          Drop(s);
          WithoutOne(b, gone, s);
          gone := gone + {s};
        }
      }
    }

    method Drop(s: Subject)
      modifies this`state, this`elected, this`transitions, this`flapping, this`lastSeen, this`downSince
      ensures Contents() == Without(old(Contents()), {s})
    {
      state, elected, transitions := state - {s}, elected - {s}, transitions - {s};
      flapping, lastSeen, downSince := flapping - {s}, lastSeen - {s}, downSince - {s};
    }

    /** The body of the decision loop. */
    method ObserveOne(d: Decision, alive: seq<Name>, now: Time) returns (sent: seq<Event>)
      modifies this`state, this`elected, this`transitions, this`flapping, this`downSince
      ensures Contents() == Judge(cfg, old(Contents()), d, alive, now).0
      ensures sent == SentBy(self, Judge(cfg, old(Contents()), d, alive, now).1)
    {
      sent := [];
      if d.voters == 0 {
        return;
      }
      var s := d.About();
      ghost var b := Contents();
      var held := Hold(s, d.state, now, b);
      JudgedBook(cfg, b, d, alive, now, Contents());
      JudgedSends(cfg, self, b, d, alive, now, Contents());
      if !held {
        sent := Voice(s, d.state, alive, now, Contents());
      }
    }

    method Hold(s: Subject, cur: State, now: Time, ghost b: Book) returns (held: bool)
      requires b == Contents()
      modifies this`downSince
      ensures
        var (r, waits) := Held(cfg, RowOf(b, s), cur, now);
        downSince == Put(b.downSince, s, r.downSince) && held == waits
    {
      SamePut(b.downSince, s);
      held := false;
      if cfg.holdDown > 0 {
        var prev := if s in state then state[s] else Up;
        if cur != Down {
          downSince := downSince - {s};
        } else if prev != Down {
          if s !in downSince || downSince[s] == ZERO_TIME {
            downSince := downSince[s := now];
          }
          if now - downSince[s] < cfg.holdDown {
            held := true;
            return;
          }
          downSince := downSince - {s};
        }
      }
    }

    method Voice(s: Subject, cur: State, alive: seq<Name>, now: Time, ghost b: Book) returns (sent: seq<Event>)
      requires b == Contents()
      modifies this`state, this`elected, this`transitions, this`flapping
      ensures
        var (r, mark) := Speak(cfg, s, RowOf(b, s), cur, alive, now);
        Contents() == WithRow(b, s, r) && sent == Sends(self, Judged(s, mark))
    {
      var prev := if s in state then state[s] else Up;
      if cur == prev {
        if s in flapping {
          sent := CloseFlap(s, cur, alive, now, b);
        } else {
          sent := KeepSender(s, cur, alive, now, b);
        }
      } else {
        sent := MoveTo(s, prev, cur, alive, now, b);
      }
    }

    method CloseFlap(s: Subject, cur: State, alive: seq<Name>, now: Time, ghost b: Book) returns (sent: seq<Event>)
      requires s in flapping
      requires b == Contents()
      modifies this`transitions, this`flapping
      ensures
        var (r, mark) := Unchanged(cfg, s, RowOf(b, s), cur, alive, now);
        Contents() == WithRow(b, s, r) && sent == Sends(self, Judged(s, mark))
    {
      sent := [];
      FlapClosed(cfg, s, b, cur, alive, now);
      var changes := if s in transitions then transitions[s] else [];
      if |changes| > 0 && now - changes[|changes| - 1] >= SETTLE_AFTER {
        flapping := flapping - {s};
        transitions := transitions - {s};
        var winner := Elect(cfg.score, s, alive);
        if winner == self {
          sent := [Event(Settled(cur), s)];
        }
      }
    }

    method KeepSender(s: Subject, cur: State, alive: seq<Name>, now: Time, ghost b: Book) returns (sent: seq<Event>)
      requires s !in flapping
      requires b == Contents()
      modifies this`elected
      ensures
        var (r, mark) := Unchanged(cfg, s, RowOf(b, s), cur, alive, now);
        Contents() == WithRow(b, s, r) && sent == Sends(self, Judged(s, mark))
    {
      sent := [];
      SenderKept(cfg, s, b, cur, alive, now);
      if cur != Up {
        var e := if s in elected then elected[s] else "";
        if e !in alive {
          var winner := Elect(cfg.score, s, alive);
          elected := elected[s := winner];
          if winner == self {
            sent := [Event(KindFor(cur, cur), s)];
          }
        }
      }
    }

    method Record(s: Subject, cur: State, now: Time) returns (changes: seq<Time>)
      modifies this`state, this`transitions
      ensures changes == Trim(RowOf(old(Contents()), s).Changes() + [now], now)
      ensures state == old(state)[s := cur] && transitions == old(transitions)[s := changes]
    {
      state := state[s := cur];
      changes := (if s in transitions then transitions[s] else []) + [now];
      ghost var all := changes;
      while |changes| > 0 && now - changes[0] > FLAP_WINDOW
        invariant Trim(changes, now) == Trim(all, now)
        decreases |changes|
      {
        changes := changes[1..];
      }
      transitions := transitions[s := changes];
    }

    method MoveTo(s: Subject, prev: State, cur: State, alive: seq<Name>, now: Time, ghost b: Book)
      returns (sent: seq<Event>)
      requires prev == RowOf(b, s).Committed()
      requires b == Contents()
      modifies this`state, this`elected, this`transitions, this`flapping
      ensures
        var (r, mark) := Changed(cfg, s, RowOf(b, s), cur, alive, now);
        Contents() == WithRow(b, s, r) && sent == Sends(self, Judged(s, mark))
    {
      var changes := Record(s, cur, now);
      sent := Announce(s, prev, cur, changes, alive);
      Moved(cfg, s, b, cur, alive, now);
    }

    method Announce(s: Subject, prev: State, cur: State, changes: seq<Time>, alive: seq<Name>)
      returns (sent: seq<Event>)
      modifies this`elected, this`flapping
      ensures
        var winner := Elected(cfg.score, s, alive);
        var flaps := |changes| >= FLAP_COUNT;
        if s in old(flapping) then
          flapping == old(flapping) && elected == old(elected) && sent == []
        else
          && flapping == (if flaps then old(flapping) + {s} else old(flapping))
          && elected == (if flaps || cur != Up then old(elected)[s := winner] else old(elected) - {s})
          && sent == if winner == self then [Event(if flaps then Flapping else KindFor(prev, cur), s)] else []
    {
      sent := [];
      if s in flapping {
        return;
      }
      var winner := Elect(cfg.score, s, alive);
      if |changes| >= FLAP_COUNT {
        flapping := flapping + {s};
        elected := elected[s := winner];
        if winner == self {
          sent := [Event(Flapping, s)];
        }
        return;
      }
      if cur == Up {
        elected := elected - {s};
      } else {
        elected := elected[s := winner];
      }
      if winner == self {
        sent := [Event(KindFor(prev, cur), s)];
      }
    }
  }
}
