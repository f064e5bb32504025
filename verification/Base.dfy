/**
 Shared vocabulary: names with Go's byte order, instants and durations in nanoseconds, and a few
 facts about finite sets.
 */
module Base {

  datatype Option<+T> = None | Some(value: T)

  type Name = string

  /** Nanoseconds. `ZERO_TIME` is Go's zero `time.Time`, which the source reads as "not set". */
  type Time = int

  const ZERO_TIME: Time := 0
  const SECOND: int := 1_000_000_000
  const MINUTE: int := 60 * SECOND
  const HOUR: int := 60 * MINUTE

  function Min(a: int, b: int): int {
    if a < b then a else b
  }

  function Max(a: int, b: int): int {
    if a < b then b else a
  }

  /** Go's `<` on strings. */
  predicate Before(a: Name, b: Name) {
    |b| > 0 && (|a| == 0 || a[0] < b[0] || (a[0] == b[0] && Before(a[1..], b[1..])))
  }

  lemma {:induction false} BeforeTotal(a: Name, b: Name)
    ensures a == b || Before(a, b) || Before(b, a)
  {
    if |a| > 0 && |b| > 0 && a[0] == b[0] {
      BeforeTotal(a[1..], b[1..]);
      assert a == [a[0]] + a[1..] && b == [b[0]] + b[1..];
    }
  }

  lemma {:induction false} BeforeIrreflexive(a: Name)
    ensures !Before(a, a)
  {
    if |a| > 0 {
      BeforeIrreflexive(a[1..]);
    }
  }

  lemma {:induction false} BeforeTransitive(a: Name, b: Name, c: Name)
    requires Before(a, b) && Before(b, c)
    ensures Before(a, c)
  {
    if |a| > 0 && a[0] == b[0] && b[0] == c[0] {
      BeforeTransitive(a[1..], b[1..], c[1..]);
    }
  }

  lemma OnePrefixOneHead(a: Name, b: Name)
    ensures forall i :: 0 < i <= |a| && i < |b| && a[..i] == b[..i] ==> a[0] == b[0]
  {
    forall i | 0 < i <= |a| && i < |b| && a[..i] == b[..i] ensures a[0] == b[0] {
      assert a[..i][0] == b[..i][0];
    }
  }

  /** Byte order: at the first place where two strings differ the smaller byte decides, and a prefix comes first. */
  lemma {:induction false} BeforeIsByteOrder(a: Name, b: Name)
    ensures Before(a, b)
       <==> exists i :: 0 <= i <= |a| && i < |b| && a[..i] == b[..i] && (i == |a| || a[i] < b[i])
  {
    OnePrefixOneHead(a, b);
    if |a| > 0 && |b| > 0 && a[0] == b[0] {
      var x, y := a[1..], b[1..];
      BeforeIsByteOrder(x, y);
      if i :| 0 <= i <= |x| && i < |y| && x[..i] == y[..i] && (i == |x| || x[i] < y[i]) {
        assert a[..i + 1] == [a[0]] + x[..i] && b[..i + 1] == [b[0]] + y[..i];
      }
      if i :| 0 <= i <= |a| && i < |b| && a[..i] == b[..i] && (i == |a| || a[i] < b[i]) {
        assert i > 0;
        assert x[..i - 1] == a[..i][1..] && y[..i - 1] == b[..i][1..];
      }
    } else if |b| > 0 && (|a| == 0 || a[0] < b[0]) {
      assert a[..0] == b[..0];
    }
  }

  ghost predicate IsLeast(x: Name, s: set<Name>) {
    x in s && forall y :: y in s ==> x == y || Before(x, y)
  }

  lemma {:induction false} LeastExists(s: set<Name>)
    requires s != {}
    ensures exists x :: IsLeast(x, s)
    decreases s
  {
    var y :| y in s;
    var rest := s - {y};
    if rest == {} {
      assert s == {y};
      assert IsLeast(y, s);
    } else {
      LeastExists(rest);
      var x :| IsLeast(x, rest);
      BeforeTotal(x, y);
      if Before(x, y) {
        assert IsLeast(x, s);
      } else {
        forall z | z in s ensures y == z || Before(y, z) {
          if z != y && z != x {
            BeforeTransitive(y, x, z);
          }
        }
        assert IsLeast(y, s);
      }
    }
  }

  lemma LeastUnique(x: Name, y: Name, s: set<Name>)
    requires IsLeast(x, s) && IsLeast(y, s)
    ensures x == y
  {
    if x != y {
      BeforeTransitive(x, y, x);
      BeforeIrreflexive(x);
    }
  }

  ghost function Least(s: set<Name>): (x: Name)
    requires s != {}
    ensures IsLeast(x, s)
  {
    LeastExists(s);
    var x :| IsLeast(x, s);
    x
  }

  ghost predicate Ascending(names: seq<Name>) {
    forall i, j :: 0 <= i < j < |names| ==> Before(names[i], names[j])
  }

  function Elements<T>(xs: seq<T>): set<T> {
    set x | x in xs
  }

  lemma TailElements<T>(less: (T, T) -> bool, xs: seq<T>)
    requires forall x, y :: less(x, y) ==> !less(y, x)
    requires xs != [] && forall i, j :: 0 <= i < j < |xs| ==> less(xs[i], xs[j])
    ensures Elements(xs[1..]) == Elements(xs) - {xs[0]}
  {
    assert xs == [xs[0]] + xs[1..];
  }

  lemma ElementsEmpty<T>(xs: seq<T>)
    ensures Elements(xs) == {} <==> xs == []
  {
    if xs != [] {
      assert xs[0] in Elements(xs);
    }
  }

  /** Sequences in one strict order hold their elements in one way only. */
  lemma {:induction false} SortedUnique<T>(less: (T, T) -> bool, xs: seq<T>, ys: seq<T>)
    requires forall x, y :: less(x, y) ==> !less(y, x)
    requires forall i, j :: 0 <= i < j < |xs| ==> less(xs[i], xs[j])
    requires forall i, j :: 0 <= i < j < |ys| ==> less(ys[i], ys[j])
    requires Elements(xs) == Elements(ys)
    ensures xs == ys
  {
    ElementsEmpty(xs);
    ElementsEmpty(ys);
    if xs != [] {
      assert xs[0] in Elements(ys) && ys[0] in Elements(xs);
      assert xs[0] == ys[0];
      TailElements(less, xs);
      TailElements(less, ys);
      SortedUnique(less, xs[1..], ys[1..]);
    }
  }

  lemma BeforeOneWay(a: Name, b: Name)
    requires Before(a, b)
    ensures !Before(b, a)
  {
    if Before(b, a) {
      BeforeTransitive(a, b, a);
      BeforeIrreflexive(a);
    }
  }

  lemma PrefixGrows<T>(xs: seq<T>, i: nat)
    requires i < |xs|
    ensures xs[..i + 1] == xs[..i] + [xs[i]]
  {
  }

  method PickLeast(s: set<Name>) returns (x: Name)
    requires s != {}
    ensures IsLeast(x, s)
  {
    LeastExists(s);
    assert exists x :: x in s && forall y :: y in s ==> x == y || Before(x, y) by {
      var x :| IsLeast(x, s);
    }
    x :| x in s && forall y :: y in s ==> x == y || Before(x, y);
  }

  ghost predicate SortedSoFar(names: seq<Name>, rest: set<Name>, s: set<Name>) {
    && rest <= s && Elements(names) == s - rest
    && |names| + |rest| == |s|
    && Ascending(names)
    && forall x, y :: x in names && y in rest ==> Before(x, y)
  }

  lemma SortStep(names: seq<Name>, rest: set<Name>, s: set<Name>, x: Name)
    requires SortedSoFar(names, rest, s) && IsLeast(x, rest)
    ensures SortedSoFar(names + [x], rest - {x}, s)
  {
    assert Elements(names + [x]) == Elements(names) + {x};
  }

  lemma EarlierNames(names: seq<Name>, i: nat)
    requires Ascending(names) && i < |names|
    ensures Elements(names[..i + 1]) == Elements(names[..i]) + {names[i]}
    ensures forall x :: x in Elements(names[..i]) ==> Before(x, names[i])
  {
    assert names[..i + 1] == names[..i] + [names[i]];
    forall x | x in Elements(names[..i]) ensures Before(x, names[i]) {
      var k :| 0 <= k < i && names[k] == x;
    }
  }

  /** Stands in for `sort.Slice` over the distinct keys of a map. */
  method SortNames(s: set<Name>) returns (names: seq<Name>)
    ensures Ascending(names) && Elements(names) == s && |names| == |s|
  {
    names := [];
    var rest := s;
    while rest != {}
      invariant SortedSoFar(names, rest, s)
      decreases rest
    {
      var x := PickLeast(rest);
      SortStep(names, rest, s, x);
      names := names + [x];
      rest := rest - {x};
    }
  }

  function Image<S, T>(f: S -> T, a: set<S>): set<T> {
    set x | x in a :: f(x)
  }

  lemma {:induction false} InjectiveImage<S, T>(f: S -> T, a: set<S>)
    requires forall x, y :: x in a && y in a && f(x) == f(y) ==> x == y
    ensures |Image(f, a)| == |a|
    decreases a
  {
    if a == {} {
      assert Image(f, a) == {};
    } else {
      var k :| k in a;
      InjectiveImage(f, a - {k});
      assert Image(f, a) == Image(f, a - {k}) + {f(k)};
    }
  }

  lemma {:induction false} SubsetSize<T>(a: set<T>, b: set<T>)
    requires a <= b
    ensures |a| <= |b|
  {
    assert b == a + (b - a);
    assert |b| == |a| + |b - a|;
  }
}
