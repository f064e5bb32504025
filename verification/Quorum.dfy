/**
 internal/quorum/quorum.go: when does the swarm agree that something is broken?

 `Decide` is the source's loop. `Verdict` over a ballot (one live word per observer) is its
 meaning in terms of sets, and the lemmas below say what that meaning guarantees.
 */
module Quorum {
  import opened Base

  datatype State = Up | Warn | Down

  datatype Subject = Subject(check: string, target: Name)

  datatype Observation = Observation(
    observer: Name, target: Name, check: string,
    state: State, detail: string, seen: Time, ttl: int)
  {
    function About(): Subject {
      Subject(check, target)
    }
  }

  datatype Decision = Decision(
    target: Name, check: string, state: State, detail: string, authority: bool,
    votes: nat, voters: nat, needed: nat, swarmSize: nat)
  {
    function About(): Subject {
      Subject(check, target)
    }
  }

  /** How long a word counts: its own TTL, or the caller's aging window. */
  function Cutoff(o: Observation, maxAge: int): int {
    if o.ttl > 0 then o.ttl * SECOND else maxAge
  }

  predicate Live(o: Observation, maxAge: int, now: Time) {
    var cutoff := Cutoff(o, maxAge);
    !(cutoff > 0 && now - o.seen > cutoff)
  }

  predicate Counts(o: Observation, s: Subject, maxAge: int, now: Time) {
    o.About() == s && Live(o, maxAge, now)
  }

  /** The word each observer casts on one subject. */
  type Ballot = map<Name, Observation>

  function Newest(s: Subject, obs: seq<Observation>, maxAge: int, now: Time): Ballot {
    if obs == [] then map[]
    else
      var o := obs[|obs| - 1];
      var b := Newest(s, obs[..|obs| - 1], maxAge, now);
      if Counts(o, s, maxAge, now) && (o.observer !in b || o.seen > b[o.observer].seen)
      then b[o.observer := o] else b
  }

  /** What a ballot is, without saying how to compute it. */
  ghost predicate IsBallot(b: Ballot, s: Subject, obs: seq<Observation>, maxAge: int, now: Time) {
    && (forall n :: n in b ==> b[n] in obs && b[n].observer == n && Counts(b[n], s, maxAge, now))
    && (forall o :: o in obs && Counts(o, s, maxAge, now) ==> o.observer in b && o.seen <= b[o.observer].seen)
  }

  /** An observer never says two different things about one subject at one instant. */
  ghost predicate NoTies(obs: seq<Observation>) {
    forall o, p :: o in obs && p in obs && o.observer == p.observer && o.About() == p.About() && o.seen == p.seen
      ==> o == p
  }

  function Complaints(b: Ballot): set<Name> {
    set n | n in b && b[n].state != Up
  }

  function Downs(b: Ballot): set<Name> {
    set n | n in b && b[n].state == Down
  }

  function Telling(b: Ballot): set<Name> {
    set n | n in Complaints(b) && b[n].detail != ""
  }

  ghost function TellingDetail(b: Ballot): string {
    if Telling(b) != {} then b[Least(Telling(b))].detail
    else if b.Keys != {} then b[Least(b.Keys)].detail
    else ""
  }

  function Needed(lastKnown: nat): nat {
    lastKnown / 2 + 1
  }

  ghost function Verdict(s: Subject, b: Ballot, lastKnown: nat): Decision {
    if s.target in b then
      var word := b[s.target];
      Decision(s.target, s.check, word.state, word.detail, true,
               if word.state == Up then 0 else 1, 1, 1, lastKnown)
    else
      Decision(s.target, s.check,
               if |Downs(b)| >= Needed(lastKnown) then Down
               else if |Complaints(b)| >= Needed(lastKnown) then Warn
               else Up,
               TellingDetail(b), false, |Complaints(b)|, |b|, Needed(lastKnown), lastKnown)
  }

  ghost predicate DetailSoFar(b: Ballot, seen: set<Name>, detail: string) {
    var told := Telling(b) * seen;
    if told == {} then detail == "" else detail != "" && detail == b[Least(told)].detail
  }

  lemma AllTallied(b: Ballot, ordered: seq<Name>)
    requires Ascending(ordered) && Elements(ordered) == b.Keys
    ensures
      var seen := Elements(ordered[..|ordered|]);
      && Complaints(b) * seen == Complaints(b) && Downs(b) * seen == Downs(b) && Telling(b) * seen == Telling(b)
    ensures ordered == [] <==> b.Keys == {}
    ensures ordered != [] ==> ordered[0] == Least(b.Keys)
  {
    assert ordered[..|ordered|] == ordered;
    if ordered != [] {
      assert ordered[0] in Elements(ordered);
      forall y | y in b.Keys ensures y == ordered[0] || Before(ordered[0], y) {
        assert y in Elements(ordered);
      }
      LeastUnique(ordered[0], Least(b.Keys), b.Keys);
    }
  }

  lemma NextInOrder(ordered: seq<Name>, i: nat)
    requires Ascending(ordered) && i < |ordered|
    ensures
      var n, seen := ordered[i], Elements(ordered[..i]);
      && n in Elements(ordered) && n !in seen && Elements(ordered[..i + 1]) == seen + {n}
      && forall x :: x in seen ==> Before(x, n)
  {
    var n := ordered[i];
    assert ordered[..i + 1] == ordered[..i] + [n];
    forall x | x in Elements(ordered[..i]) ensures Before(x, n) {
      var j :| 0 <= j < i && ordered[j] == x;
    }
    BeforeIrreflexive(n);
  }

  lemma AddOne(all: set<Name>, seen: set<Name>, n: Name)
    requires n !in seen
    ensures |all * (seen + {n})| == |all * seen| + if n in all then 1 else 0
  {
    if n in all {
      assert all * (seen + {n}) == all * seen + {n};
    } else {
      assert all * (seen + {n}) == all * seen;
    }
  }

  lemma DetailStep(b: Ballot, seen: set<Name>, n: Name, detail: string)
    requires forall x :: x in seen ==> Before(x, n)
    requires n in b && DetailSoFar(b, seen, detail)
    ensures DetailSoFar(b, seen + {n}, if b[n].state != Up && detail == "" then b[n].detail else detail)
  {
    var before, after := Telling(b) * seen, Telling(b) * (seen + {n});
    if n in Telling(b) {
      assert after == before + {n};
      if before == {} {
        LeastUnique(n, Least(after), after);
      } else {
        LeastUnique(Least(before), Least(after), after);
      }
    } else {
      assert after == before;
    }
  }

  lemma TallyStep(b: Ballot, ordered: seq<Name>, i: nat, detail: string)
    requires Ascending(ordered) && Elements(ordered) == b.Keys && i < |ordered|
    requires DetailSoFar(b, Elements(ordered[..i]), detail)
    ensures
      var n := ordered[i];
      var seen := Elements(ordered[..i]);
      && n in b && Elements(ordered[..i + 1]) == seen + {n}
      && |Complaints(b) * (seen + {n})| == |Complaints(b) * seen| + (if b[n].state != Up then 1 else 0)
      && |Downs(b) * (seen + {n})| == |Downs(b) * seen| + (if b[n].state == Down then 1 else 0)
      && DetailSoFar(b, seen + {n}, if b[n].state != Up && detail == "" then b[n].detail else detail)
  {
    var n := ordered[i];
    var seen := Elements(ordered[..i]);
    NextInOrder(ordered, i);
    AddOne(Complaints(b), seen, n);
    AddOne(Downs(b), seen, n);
    DetailStep(b, seen, n, detail);
  }

  /** The counting half of `Decide`. */
  method Tally(newest: Ballot) returns (voters: nat, votes: nat, downVotes: nat, detail: string)
    ensures voters == |newest| && votes == |Complaints(newest)| && downVotes == |Downs(newest)|
    ensures detail == TellingDetail(newest)
  {
    voters, votes, downVotes, detail := 0, 0, 0, "";
    var ordered := SortNames(newest.Keys);
    ghost var seen: set<Name> := {};
    for i := 0 to |ordered|
      invariant seen == Elements(ordered[..i]) <= newest.Keys
      invariant voters == i && votes == |Complaints(newest) * seen| && downVotes == |Downs(newest) * seen|
      invariant DetailSoFar(newest, seen, detail)
    {
      var n := ordered[i];
      var o := newest[n];
      TallyStep(newest, ordered, i, detail);
      voters := voters + 1;
      if o.state != Up {
        votes := votes + 1;
        if o.state == Down {
          downVotes := downVotes + 1;
        }
        if detail == "" {
          detail := o.detail;
        }
      }
      seen := seen + {n};
    }
    AllTallied(newest, ordered);
    if detail == "" && |ordered| > 0 {
      detail := newest[ordered[0]].detail;
    }
  }

  /** A word of `n` on the subject that has not aged out. */
  predicate Voice(o: Observation, n: Name, target: Name, check: string, maxAge: int, now: Time) {
    o.observer == n && o.target == target && o.check == check && InTime(o, maxAge, now)
  }

  /** `word` holds for each observer with such a word a newest one, and for nobody else. */
  ghost predicate NewestVoices(word: map<Name, Observation>, target: Name, check: string, obs: seq<Observation>,
                               maxAge: int, now: Time) {
    forall n ::
      && (n in word <==> exists o :: o in obs && Voice(o, n, target, check, maxAge, now))
      && (n in word ==>
            && word[n] in obs && Voice(word[n], n, target, check, maxAge, now)
            && forall o :: o in obs && Voice(o, n, target, check, maxAge, now) ==> o.seen <= word[n].seen)
  }

  /** First in byte order among those complaining in so many words, or, if there are none, among all. */
  ghost predicate Speaks(word: map<Name, Observation>, n: Name) {
    var telling := set m | m in word && word[m].state != Up && word[m].detail != "";
    if telling != {} then n in telling && forall m :: m in telling ==> m == n || Before(n, m)
    else n in word && forall m :: m in word ==> m == n || Before(n, m)
  }

  /** Every field of a decision, from newest words that have not aged out. */
  ghost predicate Explained(d: Decision, word: map<Name, Observation>, target: Name, check: string, lastKnown: nat) {
    var complaining, down := set n | n in word && word[n].state != Up, set n | n in word && word[n].state == Down;
    && d.target == target && d.check == check && d.swarmSize == lastKnown
    && (d.authority <==> target in word)
    && if target in word then
         && d.state == word[target].state && d.detail == word[target].detail
         && d.voters == 1 && d.needed == 1 && d.votes == |complaining * {target}|
       else
         && d.voters == |word| && d.votes == |complaining| && d.needed == lastKnown / 2 + 1
         && (d.state == Down <==> 2 * |down| > lastKnown)
         && (d.state == Warn <==> 2 * |down| <= lastKnown < 2 * |complaining|)
         && (word == map[] ==> d.detail == "")
         && forall n :: Speaks(word, n) ==> d.detail == word[n].detail
  }

  /** An observer is on the ballot if and only if one of its words has not aged out, and with a newest of those. */
  lemma HasVoteIff(s: Subject, obs: seq<Observation>, maxAge: int, now: Time)
    ensures NewestVoices(Newest(s, obs, maxAge, now), s.target, s.check, obs, maxAge, now)
  {
    var b := Newest(s, obs, maxAge, now);
    NewestIsBallot(s, obs, maxAge, now);
    forall o: Observation, n | Voice(o, n, s.target, s.check, maxAge, now) ensures Counts(o, s, maxAge, now) {
    }
  }

  lemma VerdictExplained(s: Subject, b: Ballot, lastKnown: nat)
    ensures Explained(Verdict(s, b, lastKnown), b, s.target, s.check, lastKnown)
  {
    CountsOrdered(b);
    assert Complaints(b) == set n | n in b && b[n].state != Up;
    assert Downs(b) == set n | n in b && b[n].state == Down;
    if s.target in b {
      assert Complaints(b) * {s.target} == if b[s.target].state == Up then {} else {s.target};
    } else {
      forall n | Speaks(b, n) ensures TellingDetail(b) == b[n].detail {
        SpeakerTells(b, n);
      }
    }
  }

  /** `Decide` in full: authority, votes, voters, quorum and verdict, each by its rule. */
  lemma DecisionInFull(s: Subject, obs: seq<Observation>, lastKnown: nat, maxAge: int, now: Time)
    ensures exists word ::
      && NewestVoices(word, s.target, s.check, obs, maxAge, now)
      && Explained(Verdict(s, Newest(s, obs, maxAge, now), lastKnown), word, s.target, s.check, lastKnown)
  {
    var b := Newest(s, obs, maxAge, now);
    HasVoteIff(s, obs, maxAge, now);
    VerdictExplained(s, b, lastKnown);
  }

  /** The source's loop over the observations, then over the observers in byte order. */
  method Decide(target: Name, check: string, obs: seq<Observation>, lastKnown: nat, maxAge: int, now: Time)
    returns (d: Decision)
    ensures d == Verdict(Subject(check, target), Newest(Subject(check, target), obs, maxAge, now), lastKnown)
    ensures exists word ::
      NewestVoices(word, target, check, obs, maxAge, now) && Explained(d, word, target, check, lastKnown)
  {
    var s := Subject(check, target);
    d := Decision(target, check, Up, "", false, 0, 0, lastKnown / 2 + 1, lastKnown);
    var newest: Ballot := map[];
    for i := 0 to |obs|
      invariant newest == Newest(s, obs[..i], maxAge, now)
    {
      var o := obs[i];
      assert obs[..i + 1] == obs[..i] + [o];
      if o.target == target && o.check == check {
        var cutoff := maxAge;
        if o.ttl > 0 {
          cutoff := o.ttl * SECOND;
        }
        if !(cutoff > 0 && now - o.seen > cutoff) {
          if o.observer !in newest || o.seen > newest[o.observer].seen {
            newest := newest[o.observer := o];
          }
        }
      }
    }
    assert obs[..|obs|] == obs;
    DecisionInFull(s, obs, lastKnown, maxAge, now);
    if target in newest {
      var word := newest[target];
      d := d.(authority := true, voters := 1, needed := 1, state := word.state, detail := word.detail);
      if word.state != Up {
        d := d.(votes := 1);
      }
      return;
    }
    var voters, votes, downVotes, detail := Tally(newest);
    d := d.(voters := voters, votes := votes, detail := detail);
    if downVotes >= d.needed {
      d := d.(state := Down);
    } else if d.votes >= d.needed {
      d := d.(state := Warn);
    }
  }

  /** A list speaks of each target at most once. */
  predicate OnePerTarget(obs: seq<Observation>) {
    forall i, j :: 0 <= i < j < |obs| ==> obs[i].target != obs[j].target
  }

  // ---- What a verdict means ----

  /** The loop's map holds the newest live word of every observer that has one, and nothing else. */
  lemma {:induction false} NewestIsBallot(s: Subject, obs: seq<Observation>, maxAge: int, now: Time)
    ensures IsBallot(Newest(s, obs, maxAge, now), s, obs, maxAge, now)
  {
    if obs != [] {
      var rest := obs[..|obs| - 1];
      assert obs == rest + [obs[|obs| - 1]];
      NewestIsBallot(s, rest, maxAge, now);
    }
  }

  lemma BallotUnique(b: Ballot, c: Ballot, s: Subject, obs: seq<Observation>, pbs: seq<Observation>, maxAge: int,
                     now: Time)
    requires IsBallot(b, s, obs, maxAge, now) && IsBallot(c, s, pbs, maxAge, now)
    requires Elements(obs) == Elements(pbs) && NoTies(obs)
    ensures b == c
  {
    forall o ensures o in obs <==> o in pbs {
      assert o in Elements(obs) <==> o in Elements(pbs);
    }
    forall n ensures n in b <==> n in c {
      if n in b { assert b[n] in pbs; }
      if n in c { assert c[n] in obs; }
    }
    forall n | n in b ensures b[n] == c[n] {
      assert b[n] in pbs && c[n] in obs;
    }
  }

  /** The verdict, detail included, depends only on which observations are held, never on their order. */
  lemma DecideIgnoresOrder(s: Subject, obs: seq<Observation>, pbs: seq<Observation>, lastKnown: nat, maxAge: int,
                           now: Time)
    requires Elements(obs) == Elements(pbs) && NoTies(obs)
    ensures Verdict(s, Newest(s, obs, maxAge, now), lastKnown) == Verdict(s, Newest(s, pbs, maxAge, now), lastKnown)
  {
    NewestIsBallot(s, obs, maxAge, now);
    NewestIsBallot(s, pbs, maxAge, now);
    BallotUnique(Newest(s, obs, maxAge, now), Newest(s, pbs, maxAge, now), s, obs, pbs, maxAge, now);
  }

  /** Without the tie rule the order does matter: two words of one instant, and the first one heard wins. */
  lemma TiesBreakOrder()
    ensures
      var s := Subject("tcp", "h");
      var up := Observation("a", "h", "tcp", Up, "", 5, 0);
      var down := Observation("a", "h", "tcp", Down, "", 5, 0);
      Verdict(s, Newest(s, [up, down], 10, 6), 1).state == Up &&
      Verdict(s, Newest(s, [down, up], 10, 6), 1).state == Down
  {
    var s := Subject("tcp", "h");
    var up := Observation("a", "h", "tcp", Up, "", 5, 0);
    var down := Observation("a", "h", "tcp", Down, "", 5, 0);
    assert [up, down][..1] == [up] && [up][..0] == [];
    assert [down, up][..1] == [down] && [down][..0] == [];
    assert Newest(s, [], 10, 6) == map[];
    assert Newest(s, [up], 10, 6) == map["a" := up];
    assert Newest(s, [down], 10, 6) == map["a" := down];
    assert Complaints(map["a" := up]) == {} && Downs(map["a" := up]) == {};
    assert Downs(map["a" := down]) == {"a"};
  }

  lemma CountsOrdered(b: Ballot)
    ensures |Downs(b)| <= |Complaints(b)| <= |b|
  {
    SubsetSize(Downs(b), Complaints(b));
    SubsetSize(Complaints(b), b.Keys);
  }

  /** Every complaint behind a verdict is a distinct observer's live word. */
  lemma VotesAreObservers(s: Subject, obs: seq<Observation>, lastKnown: nat, maxAge: int, now: Time)
    ensures
      var d := Verdict(s, Newest(s, obs, maxAge, now), lastKnown);
      && d.votes <= d.voters <= |set o | o in obs && Counts(o, s, maxAge, now) :: o.observer|
      && (!d.authority ==> d.voters == |set o | o in obs && Counts(o, s, maxAge, now) :: o.observer|)
  {
    var b := Newest(s, obs, maxAge, now);
    NewestIsBallot(s, obs, maxAge, now);
    CountsOrdered(b);
    var observers := set o | o in obs && Counts(o, s, maxAge, now) :: o.observer;
    forall n | n in b ensures n in observers {
      assert b[n] in obs;
    }
    assert b.Keys == observers;
    assert |b| == |b.Keys|;
    if s.target in b {
      SubsetSize({s.target}, b.Keys);
    }
  }

  // ---- The decision, told from the observations alone ----

  /** The aging rule in plain arithmetic: a TTL is in seconds, and without one the window applies, if there is one. */
  predicate InTime(o: Observation, maxAge: int, now: Time) {
    if o.ttl > 0 then now - o.seen <= o.ttl * 1_000_000_000 else maxAge > 0 ==> now - o.seen <= maxAge
  }

  lemma SpeakerTells(b: Ballot, n: Name)
    requires Speaks(b, n)
    ensures n in b && TellingDetail(b) == b[n].detail
  {
    assert Telling(b) == set m | m in b && b[m].state != Up && b[m].detail != "";
    if Telling(b) != {} {
      LeastUnique(n, Least(Telling(b)), Telling(b));
    } else {
      LeastUnique(n, Least(b.Keys), b.Keys);
    }
  }

  /** What is left when nobody listens to `n`. */
  function Unheeded(obs: seq<Observation>, n: Name): seq<Observation> {
    if obs == [] then []
    else
      var rest, o := Unheeded(obs[..|obs| - 1], n), obs[|obs| - 1];
      if o.observer == n then rest else rest + [o]
  }

  lemma NewestAlike(s: Subject, xs: seq<Observation>, ys: seq<Observation>, o: Observation, maxAge: int, now: Time)
    requires Newest(s, xs, maxAge, now) == Newest(s, ys, maxAge, now)
    ensures Newest(s, xs + [o], maxAge, now) == Newest(s, ys + [o], maxAge, now)
  {
    assert (xs + [o])[..|xs|] == xs && (ys + [o])[..|ys|] == ys;
  }

  lemma {:induction false} AgedOutIsUnheard(s: Subject, obs: seq<Observation>, n: Name, maxAge: int, now: Time)
    requires forall o :: o in obs && o.observer == n && o.About() == s ==> !InTime(o, maxAge, now)
    ensures Newest(s, Unheeded(obs, n), maxAge, now) == Newest(s, obs, maxAge, now)
  {
    if obs != [] {
      var rest, o := obs[..|obs| - 1], obs[|obs| - 1];
      assert o in obs && forall p :: p in rest ==> p in obs;
      AgedOutIsUnheard(s, rest, n, maxAge, now);
      if o.observer == n {
        assert !Counts(o, s, maxAge, now);
      } else {
        NewestAlike(s, Unheeded(rest, n), rest, o, maxAge, now);
        assert rest + [o] == obs;
      }
    }
  }

  /** An observer whose every word has aged out has no part in the decision: not in a vote, a voter or the state. */
  lemma AgedOutHasNoPart(s: Subject, obs: seq<Observation>, n: Name, lastKnown: nat, maxAge: int, now: Time)
    requires forall o :: o in obs && o.observer == n && o.About() == s ==>
      if o.ttl > 0 then now - o.seen > o.ttl * 1_000_000_000 else maxAge > 0 && now - o.seen > maxAge
    ensures Verdict(s, Newest(s, obs, maxAge, now), lastKnown)
         == Verdict(s, Newest(s, Unheeded(obs, n), maxAge, now), lastKnown)
  {
    AgedOutIsUnheard(s, obs, n, maxAge, now);
  }

  // ---- ... and what it means ----

  /**
   Down takes a majority of the remembered swarm saying down, Warn a majority complaining; a lantern
   alone decides its own subjects. In particular warnings are never laundered into an outage.
   */
  lemma VerdictMeansMajority(s: Subject, b: Ballot, lastKnown: nat)
    ensures
      var d := Verdict(s, b, lastKnown);
      && (d.authority <==> s.target in b)
      && (d.authority ==> d.state == b[s.target].state)
      && (!d.authority ==>
            && (d.state == Down <==> 2 * |Downs(b)| > lastKnown)
            && (d.state == Up <==> 2 * |Complaints(b)| <= lastKnown))
  {
    CountsOrdered(b);
  }

  function Rank(s: State): nat {
    match s case Up => 0 case Warn => 1 case Down => 2
  }

  /** Worsening one observer's word never improves the verdict. */
  lemma VerdictMonotone(s: Subject, b: Ballot, n: Name, worse: Observation, lastKnown: nat)
    requires n in b && Rank(b[n].state) <= Rank(worse.state)
    ensures Rank(Verdict(s, b, lastKnown).state) <= Rank(Verdict(s, b[n := worse], lastKnown).state)
  {
    var c := b[n := worse];
    SubsetSize(Downs(b), Downs(c));
    SubsetSize(Complaints(b), Complaints(c));
    CountsOrdered(b);
    CountsOrdered(c);
  }

  /** A side of the swarm can raise a Warn or Down by agreement exactly when it is a majority of what it remembers. */
  lemma CanAlarmIff(s: Subject, voters: set<Name>, lastKnown: nat)
    requires s.target !in voters
    ensures (exists b: Ballot :: b.Keys == voters && Verdict(s, b, lastKnown).state != Up) <==> 2 * |voters| > lastKnown
  {
    var all := map n | n in voters :: Observation(n, s.target, s.check, Down, "", 0, 0);
    assert all.Keys == voters;
    assert Downs(all) == voters;
    if 2 * |voters| > lastKnown {
      assert Verdict(s, all, lastKnown).state == Down;
    }
    forall b: Ballot | b.Keys == voters && Verdict(s, b, lastKnown).state != Up
      ensures 2 * |voters| > lastKnown
    {
      CountsOrdered(b);
      assert |b| == |b.Keys|;
    }
  }

  // ---- A store holds one word per observer and subject ----

  datatype Key = Key(observer: Name, check: string, target: Name)

  function KeyOf(o: Observation): Key {
    Key(o.observer, o.check, o.target)
  }

  type Store = map<Key, Observation>

  ghost predicate WellKeyed(store: Store) {
    forall k :: k in store ==> KeyOf(store[k]) == k
  }

  function Observers(store: Store): set<Name> {
    set k | k in store :: k.observer
  }

  /** The ballot a store holds on one subject. */
  function BallotOf(store: Store, s: Subject, maxAge: int, now: Time): Ballot {
    map n | n in Observers(store) && Key(n, s.check, s.target) in store
            && Counts(store[Key(n, s.check, s.target)], s, maxAge, now) :: store[Key(n, s.check, s.target)]
  }

  ghost predicate Enumerates(obs: seq<Observation>, store: Store) {
    Elements(obs) == store.Values
  }

  lemma StoreHasNoTies(obs: seq<Observation>, store: Store)
    requires WellKeyed(store) && Enumerates(obs, store)
    ensures NoTies(obs)
  {
    forall o, p | o in obs && p in obs && o.observer == p.observer && o.About() == p.About()
      ensures o == p
    {
      assert o in store.Values && p in store.Values;
      var k :| k in store && store[k] == o;
      var l :| l in store && store[l] == p;
      assert k == KeyOf(o) == KeyOf(p) == l;
    }
  }

  /** Whatever order the store is read in, `Decide` judges exactly the store's ballot. */
  lemma StoreBallot(obs: seq<Observation>, store: Store, s: Subject, maxAge: int, now: Time)
    requires WellKeyed(store) && Enumerates(obs, store)
    ensures Newest(s, obs, maxAge, now) == BallotOf(store, s, maxAge, now)
  {
    var b := BallotOf(store, s, maxAge, now);
    StoreHasNoTies(obs, store);
    NewestIsBallot(s, obs, maxAge, now);
    assert IsBallot(b, s, obs, maxAge, now) by {
      forall n | n in b ensures b[n] in obs && b[n].observer == n && Counts(b[n], s, maxAge, now) {
        var k := Key(n, s.check, s.target);
        assert k in store && b[n] == store[k];
        assert store[k] in store.Values;
        assert b[n] in Elements(obs);
      }
      forall o | o in obs && Counts(o, s, maxAge, now) ensures o.observer in b && o.seen <= b[o.observer].seen {
        assert o in Elements(obs);
        var k :| k in store && store[k] == o;
        assert KeyOf(o) == k;
      }
    }
    BallotUnique(b, Newest(s, obs, maxAge, now), s, obs, obs, maxAge, now);
  }
}
