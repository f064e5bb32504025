/**
 internal/notify/notify.go, `Elect`: rendezvous hashing picks the one lantern that pages.
 The hash of (lantern, alert) is an arbitrary scoring function.
 */
module Election {
  import opened Base
  import opened Quorum

  type Score = (Name, Subject) -> int

  ghost predicate Outranks(score: Score, alert: Subject, x: Name, y: Name) {
    score(x, alert) > score(y, alert) || (score(x, alert) == score(y, alert) && Before(y, x))
  }

  function Elected(score: Score, alert: Subject, alive: seq<Name>): Name {
    if alive == [] then ""
    else
      var winner := Elected(score, alert, alive[..|alive| - 1]);
      var id := alive[|alive| - 1];
      if winner == "" || score(id, alert) > score(winner, alert)
         || (score(id, alert) == score(winner, alert) && Before(winner, id))
      then id else winner
  }

  method Elect(score: Score, alert: Subject, alive: seq<Name>) returns (winner: Name)
    ensures winner == Elected(score, alert, alive)
  {
    winner := "";
    var best := 0;
    for i := 0 to |alive|
      invariant winner == Elected(score, alert, alive[..i])
      invariant winner != "" ==> best == score(winner, alert)
    {
      assert alive[..i + 1][..i] == alive[..i];
      var id := alive[i];
      var s := score(id, alert);
      if winner == "" || s > best || (s == best && Before(winner, id)) {
        winner, best := id, s;
      }
    }
    assert alive[..|alive|] == alive;
  }

  /** The winner is alive and outranks every other living lantern. */
  lemma {:induction false} ElectedIsMaximum(score: Score, alert: Subject, alive: seq<Name>)
    requires alive != [] && "" !in alive
    ensures Elected(score, alert, alive) in alive
    ensures forall x :: x in alive ==>
      x == Elected(score, alert, alive) || Outranks(score, alert, Elected(score, alert, alive), x)
  {
    var rest, id := alive[..|alive| - 1], alive[|alive| - 1];
    assert alive == rest + [id];
    if rest != [] {
      ElectedIsMaximum(score, alert, rest);
      var w := Elected(score, alert, rest);
      BeforeTotal(w, id);
      if Elected(score, alert, alive) == id {
        forall x | x in rest ensures x == id || Outranks(score, alert, id, x) {
          if x != w && score(id, alert) == score(w, alert) == score(x, alert) {
            if w != id {
              BeforeTransitive(x, w, id);
            }
          }
        }
      }
    }
  }

  lemma OutranksOneWay(score: Score, alert: Subject, x: Name, y: Name)
    requires Outranks(score, alert, x, y)
    ensures !Outranks(score, alert, y, x)
  {
    if Before(x, y) && Before(y, x) {
      BeforeTransitive(x, y, x);
      BeforeIrreflexive(x);
    }
  }

  /** Losing any lanterns but the winner leaves the winner in charge; in particular only the set of names matters. */
  lemma LosersDoNotMatter(score: Score, alert: Subject, alive: seq<Name>, left: seq<Name>)
    requires "" !in alive && Elements(left) <= Elements(alive)
    requires Elected(score, alert, alive) in left
    ensures Elected(score, alert, left) == Elected(score, alert, alive)
  {
    forall x | x in left ensures x in alive {
      assert x in Elements(left);
    }
    ElectedIsMaximum(score, alert, alive);
    ElectedIsMaximum(score, alert, left);
    var v, w := Elected(score, alert, left), Elected(score, alert, alive);
    if v != w {
      OutranksOneWay(score, alert, v, w);
    }
  }

  /** Order and repetition of the alive list are irrelevant. */
  lemma ElectionIsASetFunction(score: Score, alert: Subject, alive: seq<Name>, other: seq<Name>)
    requires "" !in alive && Elements(alive) == Elements(other)
    ensures Elected(score, alert, alive) == Elected(score, alert, other)
  {
    forall x ensures x in alive <==> x in other {
      assert x in Elements(alive) <==> x in Elements(other);
    }
    ElementsEmpty(alive);
    ElementsEmpty(other);
    if alive != [] {
      ElectedIsMaximum(score, alert, alive);
      LosersDoNotMatter(score, alert, alive, other);
    }
  }

  /** A newcomer either takes the alert itself or changes nothing. */
  lemma NewcomerTakesOrLeaves(score: Score, alert: Subject, alive: seq<Name>, n: Name, grown: seq<Name>)
    requires "" !in alive && n != "" && alive != [] && Elements(grown) == Elements(alive) + {n}
    ensures Elected(score, alert, grown) in {Elected(score, alert, alive), n}
  {
    forall x ensures x in grown <==> x in alive || x == n {
      assert x in Elements(grown) <==> x in Elements(alive) || x == n;
    }
    assert n in grown;
    ElectedIsMaximum(score, alert, grown);
    if Elected(score, alert, grown) != n {
      LosersDoNotMatter(score, alert, grown, alive);
    }
  }

  /** The empty name is the loop's "none yet", so with an unnamed lantern the order would matter. */
  lemma UnnamedLanternBreaksElection()
    ensures
      var score: Score := (n, s) => -|n|;
      Elected(score, Subject("tcp", "h"), ["", "b"]) != Elected(score, Subject("tcp", "h"), ["b", ""])
  {
    var score: Score := (n, s) => -|n|;
    var alert := Subject("tcp", "h");
    assert ["", "b"][..1] == [""] && ["b", ""][..1] == ["b"] && [""][..0] == [] && ["b"][..0] == [];
    assert Elected(score, alert, [""]) == "" && Elected(score, alert, ["b"]) == "b";
  }
}
